/**
 * DMA channel allocation (samd21/dmac.c): the channels in use (the set
 * bits of DMAC_AllocateChannels), and per channel the interrupt handler and
 * its data, which are opaque identities here.
 */
module Dmac {
  import opened Machine

  const NUM_CHANNELS := 12
  const NO_CHANNEL: U8 := 0xFF
  /** The channels handed out when the caller asks for none in particular. */
  const FIRST_SHARED := 4
  const LAST_SHARED := 11

  /** The lowest channel of first..last not in use, or NO_CHANNEL. */
  function LowestFreeIn(inUse: set<nat>, first: nat, last: nat): (r: U8)
    requires first <= last + 1 && last < NUM_CHANNELS
    ensures r != NO_CHANNEL ==> first <= r <= last && r !in inUse && forall k :: first <= k < r ==> k in inUse
    ensures r == NO_CHANNEL ==> forall k :: first <= k <= last ==> k in inUse
    decreases last + 1 - first
  {
    if first > last then NO_CHANNEL
    else if first !in inUse then first
    else LowestFreeIn(inUse, first + 1, last)
  }

  /** The channel DMAC_ChannelAllocate gives for a request. */
  function Chosen(inUse: set<nat>, requested: U8): U8
    requires requested == NO_CHANNEL || requested < NUM_CHANNELS
  {
    if requested != NO_CHANNEL then LowestFreeIn(inUse, requested, requested)
    else LowestFreeIn(inUse, FIRST_SHARED, LAST_SHARED)
  }

  /** A request for a particular channel gets that channel exactly when it is free. */
  lemma RequestedChannel(inUse: set<nat>, requested: U8)
    requires requested < NUM_CHANNELS
    ensures Chosen(inUse, requested) == if requested in inUse then NO_CHANNEL else requested
  {
    if requested in inUse {
      assert LowestFreeIn(inUse, requested + 1, requested) == NO_CHANNEL;
    }
  }

  /**
   * Allocating a channel and freeing it again gives the set of channels in
   * use back.
   */
  lemma AllocateFreeRoundTrip(inUse: set<nat>, requested: U8)
    requires requested == NO_CHANNEL || requested < NUM_CHANNELS
    requires Chosen(inUse, requested) != NO_CHANNEL
    ensures var c := Chosen(inUse, requested); c !in inUse && (inUse + {c}) - {c} == inUse
  {
  }

  class Channels {
    /** DMAC_AllocateChannels, as the set of its set bits. */
    var inUse: set<nat>
    /** DMAC_InterruptHandler and DMAC_InterruptData, per channel. */
    var handler: seq<nat>
    var data: seq<nat>

    ghost predicate Valid()
      reads this
    {
      |handler| == NUM_CHANNELS && |data| == NUM_CHANNELS
    }

    /** The state at start-up: no channel in use. */
    constructor ()
      ensures Valid() && inUse == {}
    {
      inUse := {};
      handler := seq(NUM_CHANNELS, _ => 0);
      data := seq(NUM_CHANNELS, _ => 0);
    }

    /**
     * DMAC_ChannelAllocate: the requested channel if it is free, or with no
     * request the lowest free channel of 4..11; NO_CHANNEL when there is
     * none.  The channel is marked in use and its handler and data are
     * recorded; nothing changes when none is given.
     */
    method Allocate(h: nat, d: nat, requested: U8) returns (c: U8)
      requires Valid() && (requested == NO_CHANNEL || requested < NUM_CHANNELS)
      modifies this
      ensures Valid()
      ensures c == Chosen(old(inUse), requested)
      ensures c != NO_CHANNEL ==>
        inUse == old(inUse) + {c} && handler == old(handler)[c := h] && data == old(data)[c := d]
      ensures c == NO_CHANNEL ==> inUse == old(inUse) && handler == old(handler) && data == old(data)
    {
      var first, last := FIRST_SHARED, LAST_SHARED;
      if requested != NO_CHANNEL {
        first, last := requested, requested;
      }
      var ch := first;
      while ch <= last
        invariant first <= ch <= last + 1
        invariant LowestFreeIn(inUse, first, last) == LowestFreeIn(inUse, ch, last)
        invariant inUse == old(inUse) && handler == old(handler) && data == old(data)
      {
        if ch !in inUse {
          inUse := inUse + {ch};
          handler := handler[ch := h];
          data := data[ch := d];
          c := ch;
          return;
        }
        ch := ch + 1;
      }
      c := NO_CHANNEL;
    }

    /** DMAC_ChannelFree: takes the channel out of use and touches nothing else. */
    method Free(c: nat)
      requires c < NUM_CHANNELS
      modifies this`inUse
      ensures inUse == old(inUse) - {c}
    {
      inUse := inUse - {c};
    }
  }
}
