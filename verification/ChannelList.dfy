/** The channel list of a driver in place (add_channel_list and remove_channel_list of
    vms/pm/main.c): a page of slots, of which the first MAX_CHANNELS are used and a zero
    marks the end. */
module ChannelList {
  import opened Channel
  import opened Lists

  const SLOTS: nat := 512   // 8-byte entries in the page

  /** The page holds exactly this list. */
  ghost predicate IsList(page: seq<nat>, list: seq<nat>) {
    && |page| == SLOTS && |list| <= MAX_CHANNELS
    && (forall i | 0 <= i < |list| :: page[i] == list[i] != 0)
    && (forall i | |list| <= i < SLOTS :: page[i] == 0)
  }

  predicate IsFull(list: seq<nat>) { |list| == MAX_CHANNELS }

  /** The list with a channel added: a full list loses it. */
  function Added(list: seq<nat>, channel: nat): seq<nat> {
    if |list| < MAX_CHANNELS then list + [channel] else list
  }

  /** The list with the gap at slot p closed: in a full list the last entry stays where it
      was as well. */
  function Closed(list: seq<nat>, p: nat): seq<nat>
    requires p < |list|
  {
    list[..p] + list[p + 1..] + (if IsFull(list) then [list[|list| - 1]] else [])
  }

  /** What the loop over the slots leaves of the list, from slot j on. */
  function Swept(list: seq<nat>, channel: nat, j: nat): seq<nat>
    decreases MAX_CHANNELS - j
  {
    if j >= MAX_CHANNELS || j >= |list| then list
    else if list[j] == channel then Swept(Closed(list, j), channel, j + 1)
    else Swept(list, channel, j + 1)
  }

  function Removed(list: seq<nat>, channel: nat): seq<nat> { Swept(list, channel, 0) }

  /** add_channel_list. */
  method AddChannel(page: array<nat>, channel: nat, ghost list: seq<nat>)
    requires IsList(page[..], list) && channel != 0
    modifies page
    ensures IsList(page[..], Added(list, channel))
  {
    var i := 0;
    while i < MAX_CHANNELS
      invariant 0 <= i <= |list| && i <= MAX_CHANNELS && page[..] == old(page[..])
    {
      assert page[..][i] == page[i];
      if page[i] == 0 {
        page[i] := channel;
        return;
      }
      i := i + 1;
    }
  }

  /** Closing the gap at slot p. */
  method Compact(page: array<nat>, p: nat, ghost list: seq<nat>)
    requires IsList(page[..], list) && p < |list|
    modifies page
    ensures IsList(page[..], Closed(list, p))
  {
    assert page[..][p] == page[p];
    ghost var was := page[..];
    var k := p;
    while k < MAX_CHANNELS - 1
      invariant p <= k <= |list| && k <= MAX_CHANNELS - 1
      invariant forall i | 0 <= i < p || k <= i < SLOTS :: page[i] == was[i]
      invariant forall i | p <= i < k :: page[i] == was[i + 1]
    {
      if page[k] == 0 {
        break;
      }
      page[k] := page[k + 1];
      k := k + 1;
    }
    page[k + 1] := 0;
  }

  /** remove_channel_list on one list, whatever is in it. */
  method RemoveFrom(page: array<nat>, channel: nat, ghost list: seq<nat>) returns (found: bool)
    requires IsList(page[..], list) && channel != 0
    modifies page
    ensures IsList(page[..], Removed(list, channel)) && (found <==> channel in list)
  {
    found := false;
    var j := 0;
    ghost var now := list;
    while j < MAX_CHANNELS
      invariant 0 <= j <= MAX_CHANNELS && IsList(page[..], now) && Swept(now, channel, j) == Removed(list, channel)
      invariant if found then channel in list else now == list && forall i | 0 <= i < j && i < |list| ::
        list[i] != channel
    {
      assert page[..][j] == page[j];
      if page[j] == channel {
        assert !found ==> list[j] in list;
        found := true;
        Compact(page, j, now);
        now := Closed(now, j);
      }
      j := j + 1;
    }
  }

  // ------------------------------------------------------- what removal achieves

  /** The lists that occur: no channel twice, but for the last one of a full list. */
  ghost predicate Padded(list: seq<nat>) {
    && |list| <= MAX_CHANNELS
    && forall i, j | 0 <= i < j < |list| && list[i] == list[j] :: IsFull(list) && list[i] == list[|list| - 1]
  }

  lemma AddedIsPadded(list: seq<nat>, channel: nat)
    requires Padded(list) && channel !in list
    ensures Padded(Added(list, channel)) && forall x :: x in Added(list, channel) ==> x == channel || x in list
  {
  }

  /** The channel is the last entry of a full list: it cannot be removed. */
  predicate Stuck(list: seq<nat>, channel: nat) { IsFull(list) && list[|list| - 1] == channel }

  lemma {:induction false} SweptNothing(list: seq<nat>, channel: nat, j: nat)
    requires forall i | j <= i < |list| :: list[i] != channel
    ensures Swept(list, channel, j) == list
    decreases MAX_CHANNELS - j
  {
    if j < MAX_CHANNELS {
      SweptNothing(list, channel, j + 1);
    }
  }

  lemma {:induction false} SweptUpTo(list: seq<nat>, channel: nat, j: nat, p: nat)
    requires j <= p < |list| <= MAX_CHANNELS && forall i | j <= i < p :: list[i] != channel
    ensures Swept(list, channel, j) == Swept(list, channel, p)
    decreases p - j
  {
    if j < p {
      SweptUpTo(list, channel, j + 1, p);
    }
  }

  /** A channel that occurs once, and not at the end of a full list, leaves one gap. */
  lemma RemovedOnce(list: seq<nat>, p: nat)
    requires p < |list| && Padded(list) && !Stuck(list, list[p])
    ensures Removed(list, list[p]) == Closed(list, p)
  {
    var c, after := list[p], Closed(list, p);
    forall i | 0 <= i < |list| && i != p ensures list[i] != c {
    }
    SweptUpTo(list, c, 0, p);
    forall i | p + 1 <= i < |after| ensures after[i] != c {
      assert after[i] == if i + 1 < |list| then list[i + 1] else list[|list| - 1];
    }
    SweptNothing(after, c, p + 1);
  }

  /** A stuck channel stays, whatever the sweep does to the rest. */
  lemma {:induction false} SweptStuck(list: seq<nat>, channel: nat, j: nat)
    requires Padded(list) && Stuck(list, channel)
    ensures Padded(Swept(list, channel, j)) && Stuck(Swept(list, channel, j), channel)
    ensures forall x {:trigger x in Swept(list, channel, j)} :: x in Swept(list, channel, j) <==> x in list
    decreases MAX_CHANNELS - j
  {
    if j < MAX_CHANNELS {
      if list[j] == channel {
        var after := Closed(list, j);
        ClosedMembers(list, j);
        ClosedIsPadded(list, j);
        SweptStuck(after, channel, j + 1);
      } else {
        SweptStuck(list, channel, j + 1);
      }
    }
  }

  lemma ClosedIsPadded(list: seq<nat>, p: nat)
    requires Padded(list) && p < |list|
    ensures Padded(Closed(list, p))
      && (IsFull(list) ==> IsFull(Closed(list, p)) && Closed(list, p)[|list| - 1] == list[|list| - 1])
  {
    var after := Closed(list, p);
    forall i | 0 <= i < |after|
      ensures after[i] == if i < p then list[i] else if i + 1 < |list| then list[i + 1] else list[|list| - 1]
    {
    }
  }

  lemma ClosedMembers(list: seq<nat>, p: nat)
    requires Padded(list) && p < |list|
    ensures forall x :: x in Closed(list, p) <==> x in list && (x != list[p] || Stuck(list, x))
  {
    var after := Closed(list, p);
    forall i | 0 <= i < |after|
      ensures after[i] == if i < p then list[i] else if i + 1 < |list| then list[i + 1] else list[|list| - 1]
    {
    }
    forall x | x in list && (x != list[p] || Stuck(list, x)) ensures x in after {
      var i :| 0 <= i < |list| && list[i] == x;
      if x == list[p] {
        assert after[|list| - 1] == x;
      } else {
        assert after[if i < p then i else i - 1] == x;
      }
    }
    forall x | x in after ensures x in list && (x != list[p] || Stuck(list, x)) {
      var i :| 0 <= i < |after| && after[i] == x;
      assert after[i] == list[p] ==> Stuck(list, x);
    }
  }

  /** Removal takes the channel out, and nothing else, if and only if it is not the last
      one of a full list; a list that is not full just loses it, in order. */
  lemma RemovedIff(list: seq<nat>, channel: nat)
    requires Padded(list) && channel in list
    ensures Padded(Removed(list, channel))
    ensures channel in Removed(list, channel) <==> Stuck(list, channel)
    ensures forall x {:trigger x in Removed(list, channel)} | x != channel :: x in Removed(list, channel) <==> x in list
    ensures !IsFull(list) ==> Removed(list, channel) == Without(list, channel)
  {
    var p :| 0 <= p < |list| && list[p] == channel;
    if Stuck(list, channel) {
      SweptStuck(list, channel, 0);
      assert Removed(list, channel)[MAX_CHANNELS - 1] == channel;
    } else {
      RemovedOnce(list, p);
      ClosedIsPadded(list, p);
      ClosedMembers(list, p);
      if !IsFull(list) {
        WithoutAt(list, p);
      }
    }
  }

  /** The lists of all cores that have one. */
  ghost predicate AreLists(pages: seq<array?<nat>>, lists: seq<seq<nat>>)
    reads pages
  {
    && |pages| == |lists|
    && (forall i, j | 0 <= i < j < |pages| && pages[i] != null :: pages[i] != pages[j])
    && (forall i {:trigger lists[i]} | 0 <= i < |pages| && pages[i] != null :: IsList(pages[i][..], lists[i]))
  }

  /** remove_channel_list: false is its panic. */
  method RemoveChannel(pages: seq<array?<nat>>, channel: nat, ghost lists: seq<seq<nat>>) returns (found: bool)
    requires AreLists(pages, lists)
    modifies pages
    ensures found <==> channel != 0 && exists i | 0 <= i < |pages| && pages[i] != null :: channel in lists[i]
    ensures found ==>
      forall i {:trigger lists[i]} | 0 <= i < |pages|
        && pages[i] != null :: IsList(pages[i][..], Removed(lists[i], channel))
    ensures !found ==>
      forall i {:trigger lists[i]} | 0 <= i < |pages| && pages[i] != null :: IsList(pages[i][..], lists[i])
  {
    hide Removed;
    found := false;
    if channel == 0 {
      return;
    }
    var i := 0;
    while i < |pages|
      invariant 0 <= i <= |pages|
      invariant found <==> exists k | 0 <= k < i && pages[k] != null :: channel in lists[k]
      invariant forall k {:trigger lists[k]} | 0 <= k < i && pages[k] != null ::
        IsList(pages[k][..], Removed(lists[k], channel))
      invariant forall k {:trigger lists[k]} | i <= k < |pages| && pages[k] != null :: IsList(pages[k][..], lists[k])
    {
      if pages[i] != null {
        assert lists[i] == lists[i];
        var here := RemoveFrom(pages[i], channel, lists[i]);
        found := found || here;
      }
      i := i + 1;
    }
    if !found {
      forall k | 0 <= k < |pages| && pages[k] != null ensures IsList(pages[k][..], lists[k]) {
        RemovedNothing(lists[k], channel);
        assert lists[k] == lists[k];
      }
    }
  }

  lemma RemovedNothing(list: seq<nat>, channel: nat)
    requires channel !in list
    ensures Removed(list, channel) == list
  {
    SweptNothing(list, channel, 0);
  }
}
