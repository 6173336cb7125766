/**
 Unreliable packets on an ENet channel: enet/peer.c, with the list cursors of its dispatcher.
 */
module UnreliableReceiver {
  import opened Machine
  import opened SequenceWindows
  import opened Messages
  import opened Inbox
  import opened DispatchScan
  import opened UnreliableOrder

  /** Strictly increasing pairs of numbers, none after the pair given. */
  ghost predicate Increasing(h: seq<(nat, uint16)>, r: nat, u: uint16) {
    && (forall k | 0 <= k < |h| :: h[k].0 < r || (h[k].0 == r && h[k].1 <= u))
    && (forall j, k | 0 <= j < k < |h| :: h[j].0 < h[k].0 || (h[j].0 == h[k].0 && h[j].1 < h[k].1))
  }

  ghost predicate Complete(s: seq<Entry>) {
    forall k | 0 <= k < |s| && !s[k].unsequenced :: s[k].fragmentsRemaining == 0 && Clear(s[k].fragments) == 0
  }

  const MAX_FRAGMENTS := 1024 * 1024

  /** A piece of an unreliable packet, as it arrives. */
  datatype Piece = Piece(number: nat, count: nat, offset: nat, total: nat, bytes: seq<uint8>)

  /** What is refused of a piece. */
  predicate WellCut(d: Piece, size: nat) {
    d.count <= MAX_FRAGMENTS && d.number < d.count && d.total <= size && d.offset < d.total && |d.bytes| <= d.total - d.offset
  }

  /** `d` is piece `d.number` of packet `m`. */
  ghost predicate IsPiece(d: Piece, m: Message) {
    && m.Valid() && m.Fragmented() && d.number < d.count == m.Pieces() && d.total == |m.data|
    && m.Offset(d.number) <= |m.data| && d.offset == m.Offset(d.number) && d.bytes == m.Piece(d.number)
  }

  /** What has arrived of `m` is in its place. */
  ghost predicate Holds(e: Entry, m: Message) {
    && m.Valid()
    && if m.Fragmented() then
         && |e.fragments| == m.Pieces() && |e.data| == |m.data|
         && forall i | 0 <= i < |e.fragments| && e.fragments[i] :: HasPiece(e.data, m, i)
       else
         e.fragments == [] && e.data == m.data
  }

  /** Every entry holds of the packet sent under its numbers what has arrived of it. */
  ghost predicate Built(s: seq<Entry>, sent: (nat, uint16) -> Message) {
    forall e | e in s && !e.unsequenced :: Holds(e, sent(e.number, e.unreliable))
  }

  /** What was delivered is, byte for byte, what was sent under its numbers. */
  lemma {:induction false} DeliveredWhole(s: seq<Entry>, r: nat, u: uint16, sent: (nat, uint16) -> Message)
    requires Delivered(s, r, u) && Built(s, sent)
    ensures forall k | 0 <= k < |s| && !s[k].unsequenced :: s[k].data == sent(s[k].number, s[k].unreliable).data
  {
    hide Clear, Increasing, Numbers, Holds;
    forall k | 0 <= k < |s| && !s[k].unsequenced ensures s[k].data == sent(s[k].number, s[k].unreliable).data {
      assert s[k] in s;
      HoldsAll(s[k], sent(s[k].number, s[k].unreliable));
    }
  }

  lemma {:induction false} HoldsAll(e: Entry, m: Message)
    requires Holds(e, m) && Clear(e.fragments) == 0
    ensures e.data == m.data
  {
    hide Count, Steps;
    if m.Fragmented() {
      var x := Incoming(0, true, |e.fragments|, Clear(e.fragments), e.fragments, e.data, 0);
      assert Assembles(x, m);
      Reassembled(x, m);
    }
  }

  ghost predicate Delivered(s: seq<Entry>, r: nat, u: uint16) {
    Complete(s) && Increasing(Numbers(s), r, u)
  }

  class UnreliableChannel {
    var incomingReliable: uint16
    var incomingUnreliable: uint16
    var queue: seq<Entry>
    var dispatched: seq<Entry>
    var nextId: nat
    ghost var reliable: nat
    /** What was sent under each pair of numbers. */
    ghost const sent: (nat, uint16) -> Message

    ghost function View(): Pending
      reads `incomingUnreliable, `queue, `reliable
    {
      Pending(reliable, incomingUnreliable, queue)
    }

    /** The queue is in order and up to date, and what was delivered went out complete and in strictly
        increasing order of reliable, then unreliable, number. */
    ghost predicate Valid()
      reads `incomingReliable, `incomingUnreliable, `queue, `dispatched, `nextId, `reliable
    {
      && incomingReliable == Wire(reliable) && View().Valid()
      && (forall k | 0 <= k < |queue| :: queue[k].id < nextId)
      && Delivered(dispatched, reliable, incomingUnreliable)
    }

    /** What has arrived is in its place, in the queue and in what was delivered. */
    ghost predicate Whole()
      reads `queue, `dispatched
    {
      Built(queue, sent) && Built(dispatched, sent)
    }

    /** `enet_peer_remove_incoming_commands`, for the entries before `end`. */
    method RemoveBefore(end: nat, exclude: int)
      requires end <= |queue|
      modifies `queue
      ensures queue == Only(old(queue)[..end], exclude) + old(queue)[end..]
    {
      hide Only, Removing;
      ghost var s := queue;
      var i: nat, left: nat := 0, end;
      RemoveStart(s, exclude);
      while left > 0
        invariant left <= end && Removing(s, queue, end - left, i, exclude)
      {
        RemoveStep(s, queue, end - left, i, exclude);
        if queue[i].id == exclude {
          i := i + 1;
        } else {
          queue := queue[..i] + queue[i + 1..];
        }
        left := left - 1;
      }
      RemoveEnd(s, queue, end, i, exclude);
    }

    /** `enet_list_move` of the entries from `first` up to `end` to the end of `dispatched`. */
    method MoveRun(first: nat, end: nat)
      requires first <= end <= |queue|
      modifies `queue, `dispatched
      ensures queue == old(queue)[..first] + old(queue)[end..]
      ensures dispatched == old(dispatched) + old(queue)[first..end]
    {
      dispatched := dispatched + queue[first..end];
      queue := queue[..first] + queue[end..];
    }

    /** An incomplete entry at `current`: deliver the run before it; it is spared so far, and so is the entry
        before it if nothing was delivered in between. */
    method PassIncomplete(start: nat, current: nat, dropped: nat) returns (drop: nat)
      requires start <= current < |queue| && dropped <= start
      modifies `queue, `dispatched
      ensures queue == old(queue)[..start] + old(queue)[current..]
      ensures dispatched == old(dispatched) + old(queue)[start..current]
      ensures drop == if start != current then start else if dropped != current then current - 1 else dropped
    {
      if start != current {
        MoveRun(start, current);
        drop := start;
      } else {
        NoRun(queue, start, dispatched);
        drop := if dropped != current then current - 1 else dropped;
      }
    }

    /** A stale entry at `current`: deliver the run before it; it is to be dropped. */
    method PassStale(start: nat, current: nat) returns (drop: nat)
      requires start <= current < |queue|
      modifies `queue, `dispatched
      ensures queue == old(queue)[..start] + old(queue)[current..]
      ensures dispatched == old(dispatched) + old(queue)[start..current]
      ensures drop == start + 1
    {
      if start != current {
        MoveRun(start, current);
      } else {
        NoRun(queue, start, dispatched);
      }
      drop := start + 1;
    }

    /** The scan stops at `current`: deliver the run before it; what was kept before that run is dropped. */
    method PassEnd(start: nat, current: nat, dropped: nat) returns (drop: nat)
      requires start <= current <= |queue|
      modifies `queue, `dispatched
      ensures queue == old(queue)[..start] + old(queue)[current..]
      ensures dispatched == old(dispatched) + old(queue)[start..current]
      ensures drop == if start != current then start else dropped
    {
      if start != current {
        MoveRun(start, current);
        drop := start;
      } else {
        NoRun(queue, start, dispatched);
        drop := dropped;
      }
    }

    /** One turn of the scan, at entry `p` of the queue as it was. */
    method Turn(start: nat, current: nat, dropped: nat, ghost s: seq<Entry>, ghost p: nat, ghost scan: Scan)
      returns (stop: bool, start': nat, current': nat, dropped': nat, ghost scan': Scan)
      requires Scanning(incomingReliable, s, p, scan.r, scan.kept, queue, scan.moved, dropped)
      requires start == |scan.kept| && scan.r <= p && current == start + (p - scan.r) < |queue|
      modifies `queue, `dispatched, `incomingUnreliable
      ensures p < |s|
      ensures stop ==> && KindOf(incomingReliable, s[p]).Future? && scan' == scan && start' == start && current' == current
                       && dropped' == dropped && queue == old(queue) && dispatched == old(dispatched)
                       && incomingUnreliable == old(incomingUnreliable)
      ensures !stop ==> && Scanning(incomingReliable, s, p + 1, scan'.r, scan'.kept, queue, scan'.moved, dropped')
                        && scan'.r <= p + 1 && start' == |scan'.kept| && current' == start' + (p + 1 - scan'.r) <= |queue|
                        && scan.moved <= scan'.moved && dispatched == old(dispatched) + scan'.moved[|scan.moved|..]
                        && incomingUnreliable ==
                           if KindOf(incomingReliable, s[p]).Deliver? && !s[p].unsequenced then s[p].unreliable
                           else old(incomingUnreliable)
    {
      hide Accepts, Scanning, Scanned;
      ghost var c := incomingReliable;
      stop, start', current', dropped', scan' := false, start, current, dropped, scan;
      ScanAt(c, s, p, scan.r, scan.kept, queue, scan.moved, dropped);
      var e := queue[current];
      if e.unsequenced || (e.reliable == incomingReliable && e.fragmentsRemaining <= 0) {
        ScanOver(c, s, p, scan.r, scan.kept, queue, scan.moved, dropped);
        if !e.unsequenced {
          incomingUnreliable := e.unreliable;
        }
        current' := current + 1;
        return;
      }
      if e.reliable != incomingReliable && Accepts(incomingReliable, e.reliable) {
        return true, start, current, dropped, scan;
      }
      ScanDropped(c, s, p, scan.r, scan.kept, queue, scan.moved, dropped);
      ScanPast(c, s, p, scan.r, scan.kept, queue, scan.moved, dropped);
      scan' := Scan(p + 1, scan.kept + [e], scan.moved + queue[start..current]);
      if e.reliable == incomingReliable {
        dropped' := PassIncomplete(start, current, dropped);
      } else {
        dropped' := PassStale(start, current);
      }
      start' := start + 1;
      current' := start';
    }

    /** `enet_peer_dispatch_incoming_unreliable_commands`: the three cursors amount to a plain filter. */
    method Dispatch(exclude: int)
      modifies `queue, `dispatched, `incomingUnreliable
      ensures dispatched == old(dispatched) + Deliverable(incomingReliable, old(queue)[..Scanned(incomingReliable, old(queue))])
      ensures queue == Rest(incomingReliable, old(queue), exclude)
      ensures incomingUnreliable ==
              LastUnreliable(incomingReliable, old(queue)[..Scanned(incomingReliable, old(queue))], old(incomingUnreliable))
    {
      hide KindOf, Scanning, Deliverable, LastUnreliable, Scanned, Survivors, Undelivered, Only, Rest;
      ghost var s, c := queue, incomingReliable;
      ghost var p: nat, scan := 0, Scan(0, [], []);
      var dropped: nat, start: nat, current: nat, stop := 0, 0, 0, false;
      ScanStart(c, s);
      assert s[..0] == [];
      NothingLast(c, incomingUnreliable);
      while current < |queue| && !stop
        invariant scan.r <= p <= |s| && start == |scan.kept| && current == start + (p - scan.r) <= |queue|
        invariant Scanning(c, s, p, scan.r, scan.kept, queue, scan.moved, dropped) && dispatched == old(dispatched) + scan.moved
        invariant incomingUnreliable == LastUnreliable(c, s[..p], old(incomingUnreliable))
        invariant stop ==> p < |s| && KindOf(c, s[p]).Future?
        decreases |s| - p, !stop
      {
        ghost var moved := scan.moved;
        ScanAt(c, s, p, scan.r, scan.kept, queue, scan.moved, dropped);
        LastStep(c, s, p, old(incomingUnreliable));
        stop, start, current, dropped, scan := Turn(start, current, dropped, s, p, scan);
        if !stop {
          p := p + 1;
        }
        if !stop {
          Appended(old(dispatched), moved, scan.moved);
        }
      }
      ScanAt(c, s, p, scan.r, scan.kept, queue, scan.moved, dropped);
      Finish(start, current, dropped, exclude, s, p, scan);
      Appended(old(dispatched), scan.moved, Deliverable(c, s[..p]));
    }

    /** The scan is over: deliver the last run, and remove what is not spared. */
    method Finish(start: nat, current: nat, dropped: nat, exclude: int, ghost s: seq<Entry>, ghost p: nat, ghost scan: Scan)
      requires p <= |s| && Scanning(incomingReliable, s, p, scan.r, scan.kept, queue, scan.moved, dropped)
      requires start == |scan.kept| && scan.r <= p && current == start + (p - scan.r) <= |queue|
      requires p == |s| || KindOf(incomingReliable, s[p]).Future?
      modifies `queue, `dispatched
      ensures p == Scanned(incomingReliable, s) && scan.moved <= Deliverable(incomingReliable, s[..p])
      ensures dispatched == old(dispatched) + Deliverable(incomingReliable, s[..p])[|scan.moved|..]
      ensures queue == Rest(incomingReliable, s, exclude)
    {
      hide KindOf, Scanning, Deliverable, Scanned, Survivors, Undelivered, Only, Rest;
      ghost var c := incomingReliable;
      Reached(c, s, p, scan.r, scan.kept, queue, scan.moved, dropped);
      ScanDropped(c, s, p, scan.r, scan.kept, queue, scan.moved, dropped);
      ScanEnd(c, s, p, scan.r, scan.kept, queue, scan.moved, dropped);
      ghost var run := queue[start..current];
      var drop := PassEnd(start, current, dropped);
      assert (scan.moved + run)[|scan.moved|..] == run;
      RestIs(c, s, p, scan.kept, drop, exclude);
      RemoveBefore(drop, exclude);
    }

    /** A pass, against true numbers. */
    method Pass(exclude: int)
      requires incomingReliable == Wire(reliable) && View().Loose() && View().Spared(exclude)
      requires Delivered(dispatched, reliable, incomingUnreliable)
      requires forall k | 0 <= k < |queue| :: queue[k].id < nextId
      modifies `queue, `dispatched, `incomingUnreliable
      ensures Valid() && View() == Passed(old(View()), exclude)
      ensures dispatched == old(dispatched) + Taken(old(View()))
      ensures old(Whole()) ==> Whole()
    {
      hide Built, Scanned, Deliverable, Rest, LastUnreliable, Pending.Loose, Pending.Spared, Pending.Valid, Delivered;
      ghost var p := View();
      PassValid(p, exclude);
      PassDelivers(p, dispatched);
      PassIds(p, exclude, nextId);
      if Built(queue, sent) && Built(dispatched, sent) {
        PassBuilt(p, exclude, sent);
        BuiltBoth(dispatched, Taken(p), sent);
      }
      Dispatch(exclude);
    }

    /** Where a sequenced packet belongs in the queue, searched for from the back. */
    method FindUnreliable(r: uint16, u: uint16) returns (at: nat, same: bool)
      requires OrderedFrom(incomingReliable, queue)
      ensures at <= |queue|
      ensures same ==> at > 0 && queue[at - 1].reliable == r && queue[at - 1].unreliable == u
      ensures !same ==> PlaceFor(incomingReliable, queue, r, u, at)
    {
      at, same := |queue|, false;
      while at > 0
        invariant at <= |queue|
        invariant forall q | at <= q < |queue| :: Less(incomingReliable, r, u, queue[q].reliable, queue[q].unreliable)
      {
        var e := queue[at - 1];
        if r >= incomingReliable {
          if e.reliable < incomingReliable {
            at := at - 1;
            continue;
          }
        } else if e.reliable >= incomingReliable {
          break;
        }
        if e.reliable < r {
          break;
        }
        if e.reliable > r {
          at := at - 1;
          continue;
        }
        if e.unreliable <= u {
          same := e.unreliable == u;
          break;
        }
        at := at - 1;
      }
    }

    /**
     `enet_peer_queue_incoming_command` for a sequenced packet that follows reliable number `n`; `fragmentCount`
     is positive when it comes in pieces.
     */
    method QueueUnreliable(r: uint16, u: uint16, data: seq<uint8>, fragmentCount: nat, room: bool, ghost n: nat)
      returns (queued: bool, id: nat)
      requires Valid() && r == Wire(n) && u >= 1 && InTime(reliable, n)
      modifies `queue, `dispatched, `incomingUnreliable, `nextId
      ensures Valid()
      ensures queued ==> Fresh(old(View()), n, u) && room && id == old(nextId)
      ensures !queued ==> View() == old(View()) && dispatched == old(dispatched)
      ensures !queued && room ==> !Fresh(old(View()), n, u) || exists q | 0 <= q < |queue| :: queue[q].number == n && queue[q].unreliable == u
      ensures queued && fragmentCount == 0 && n == reliable ==>
                |dispatched| == |old(dispatched)| + 1 && dispatched[..|old(dispatched)|] == old(dispatched)
                && dispatched[|old(dispatched)|].number == n && dispatched[|old(dispatched)|].unreliable == u
      ensures queued && (fragmentCount > 0 || n > reliable) ==> dispatched == old(dispatched)
      ensures queued ==>
                Inserted(old(View()), Entry(id, false, r, u, fragmentCount, seq(fragmentCount, i => false), data, n), View()) && nextId == id + 1
      ensures old(Whole()) && BlankFor(sent(n, u), data, fragmentCount) ==> Whole()
      ensures queued && fragmentCount > 0 ==> Entry(id, false, r, u, fragmentCount, seq(fragmentCount, i => false), data, n) in queue
    {
      hide Built, Delivered, PlaceFor, OrderedFrom, InTime, Scanned, Passed, Pending.Valid, Pending.Loose, Pending.Spared, Pending.Judged, Accepts, Clear, Window, Taken;
      id := nextId;
      ghost var p := View();
      LetInUnreliable(p, n, u);
      if !Accepts(incomingReliable, r) || (r == incomingReliable && u <= incomingUnreliable) {
        return false, id;
      }
      PendingOrdered(p);
      var at, same := FindUnreliable(r, u);
      assert reliable <= n < reliable + 0x1_0000 by { FreshReach(p, n, u); }
      if same {
        SamePair(p, n, u, at - 1);
        return false, id;
      }
      if !room {
        return false, id;
      }
      var e := Entry(id, false, r, u, fragmentCount, seq(fragmentCount, i => false), data, n);
      nextId := nextId + 1;
      InsertLoose(p, n, u, at, e);
      if Built(queue, sent) && BlankFor(sent(n, u), data, fragmentCount) {
        InsertBuilt(queue, at, e, sent);
      }
      queue := queue[..at] + [e] + queue[at..];
      InsertTaken(p, at, e);
      if fragmentCount > 0 {
        SparedStays(View(), id, at);
      }
      assert Inserted(p, e, Passed(With(p, at, e), id));
      Pass(id);
      queued := true;
    }

    /**
     `enet_protocol_handle_send_unreliable_fragment`: piece `d` of the packet numbered `u`. Either its entry, which may
     just have been queued, is there afterwards with the piece in it, or the packet went out.
     */
    method HandleFragment(r: uint16, u: uint16, d: Piece, size: nat, room: bool, ghost n: nat) returns (ok: bool)
      requires Valid() && r == Wire(n) && u >= 1 && InTime(reliable, n)
      modifies `queue, `dispatched, `incomingUnreliable, `nextId
      ensures Valid()
      ensures !Fresh(old(View()), n, u) ==> ok && View() == old(View()) && dispatched == old(dispatched)
      ensures !WellCut(d, size) && Fresh(old(View()), n, u) ==> !ok
      ensures !ok ==> View() == old(View()) && dispatched == old(dispatched)
      ensures !ok && WellCut(d, size) && room ==>
                exists q | 0 <= q < |queue| :: queue[q].number == n && queue[q].unreliable == u && !Agrees(queue[q], d)
      ensures old(dispatched) <= dispatched
      ensures ok && Fresh(old(View()), n, u) ==> Landed(View(), dispatched[|old(dispatched)|..], n, u, d.number)
      ensures old(Whole()) && IsPiece(d, sent(n, u)) ==> Whole()
    {
      hide Delivered, PlaceFor, OrderedFrom, InTime, Pending.Valid, Pending.Judged, Accepts, Clear, Fresh, Landed, Inserted,
        AfterPiece, TakenByPiece, Built, IsPiece, BlankFor, Count, Steps;
      ghost var p := View();
      LetInUnreliable(p, n, u);
      if !Accepts(incomingReliable, r) {
        return true;
      }
      if r == incomingReliable && u <= incomingUnreliable {
        return true;
      }
      FreshReach(p, n, u);
      if !WellCut(d, size) {
        return false;
      }
      PendingOrdered(p);
      var at, same := FindUnreliable(r, u);
      var q: nat;
      if same {
        q := at - 1;
        if |queue[q].fragments| != d.count || |queue[q].data| != d.total {
          SamePair(p, n, u, q);
          return false;
        }
      } else {
        PlaceNew(p, n, u, at);
        PieceBlank(d, sent(n, u));
        var blank: seq<uint8> := seq(d.total, k => 0);
        var queued, id := QueueUnreliable(r, u, blank, d.count, room, n);
        if !queued {
          return false;
        }
        q := Find(id, r, u, d);
      }
      ghost var p1 := View();
      SamePair(p1, n, u, q);
      PieceLands(p1, q, d);
      StorePiece(q, d);
      assert dispatched[|old(dispatched)|..] == TakenByPiece(p1, q, d);
      ok := true;
    }

    /** The entry that has just been queued. */
    method Find(id: nat, r: uint16, u: uint16, d: Piece) returns (q: nat)
      requires exists k :: 0 <= k < |queue| && IsFor(queue[k], id, r, u, d)
      ensures q < |queue| && IsFor(queue[q], id, r, u, d)
    {
      q := 0;
      while !IsFor(queue[q], id, r, u, d)
        invariant q < |queue| && exists k :: q <= k < |queue| && IsFor(queue[k], id, r, u, d)
        decreases |queue| - q
      {
        q := q + 1;
      }
    }

    /** The same for an unsequenced packet: it goes to the front and out at once. */
    method QueueUnsequenced(data: seq<uint8>, room: bool) returns (queued: bool)
      requires Valid()
      modifies `queue, `dispatched, `incomingUnreliable, `nextId
      ensures Valid() && queued == room
      ensures !queued ==> View() == old(View()) && dispatched == old(dispatched)
      ensures queued ==> |dispatched| == |old(dispatched)| + 1 && dispatched[..|old(dispatched)|] == old(dispatched)
                         && dispatched[|old(dispatched)|] == Entry(old(nextId), true, 0, 0, 0, [], data, 0)
      ensures queued ==> View() == Passed(With(old(View()), 0, Entry(old(nextId), true, 0, 0, 0, [], data, 0)), old(nextId))
      ensures old(Whole()) ==> Whole()
    {
      hide Pending.Valid, Pending.Loose, Pending.Spared, Pending.Judged, Clear, Holds;
      if !room {
        return false;
      }
      ghost var p := View();
      var e := Entry(nextId, true, 0, 0, 0, [], data, 0);
      nextId := nextId + 1;
      FrontLoose(p, e);
      queue := [e] + queue;
      InsertTaken(p, 0, e);
      Pass(e.id);
      queued := true;
    }

    /** Piece `d` of the packet at `q` arrives. */
    method StorePiece(q: nat, d: Piece)
      requires Valid() && q < |queue| && d.number < |queue[q].fragments| && d.offset + |d.bytes| <= |queue[q].data|
      modifies `queue, `dispatched, `incomingUnreliable
      ensures Valid()
      ensures View() == AfterPiece(old(View()), q, d)
      ensures dispatched == old(dispatched) + TakenByPiece(old(View()), q, d)
      ensures old(Whole()) && old(IsPiece(d, sent(queue[q].number, queue[q].unreliable))) ==> Whole()
    {
      hide Pending.Loose, Pending.Spared, Delivered, Taken, Built, IsPiece, Copied;
      var e := queue[q];
      if !e.fragments[d.number] {
        ClearOne(e.fragments, d.number);
        ghost var p := View();
        assert p.Judged(e);
        e := e.(fragmentsRemaining := e.fragmentsRemaining - 1, fragments := e.fragments[d.number := true],
                data := Copied(e.data, d.offset, d.bytes));
        PieceLoose(p, q, e, nextId);
        if Built(queue, sent) && IsPiece(d, sent(e.number, e.unreliable)) {
          PieceBuilt(queue, q, d, e, sent);
        }
        queue := queue[q := e];
        assert View() == PieceIn(p, q, d);
        if e.fragmentsRemaining <= 0 {
          Pass(-1);
        }
      }
    }

    /** The dispatcher of reliable packets has moved on to number `n`. */
    method Advance(r: uint16, ghost n: nat)
      requires Valid() && r == Wire(n) && reliable < n && Window(n) <= Window(reliable) + WINDOWS - FREE_WINDOWS + 1
      modifies `incomingReliable, `incomingUnreliable, `queue, `dispatched, `reliable
      ensures Valid() && reliable == n && View() == Passed(Pending(n, 0, old(queue)), -1)
      ensures dispatched == old(dispatched) + Taken(Pending(n, 0, old(queue)))
      ensures old(Whole()) ==> Whole()
    {
      hide Pending.Valid, Pending.Loose, Pending.Spared, Pending.Judged, Clear, Built;
      AdvanceLoose(View(), n);
      incomingReliable, incomingUnreliable, reliable := r, 0, n;
      if |queue| > 0 {
        SparedNone(View(), nextId);
        Pass(-1);
      } else {
        EmptyValid(View());
        assert queue == [];
        NothingPending(n);
      }
    }
  }

  // ---------- One pass ----------

  /** What a pass delivers. */
  ghost function Taken(p: Pending): seq<Entry> {
    var c := Wire(p.reliable);
    Deliverable(c, p.queue[..Scanned(c, p.queue)])
  }

  lemma {:induction false} DeliverableComplete(p: Pending, t: seq<Entry>)
    requires forall k | 0 <= k < |t| :: p.Judged(t[k])
    ensures Complete(Deliverable(Wire(p.reliable), t))
  {
    hide KindOf, Window, Clear, Pending.Judged;
    var c := Wire(p.reliable);
    if t != [] {
      var n := |t| - 1;
      DeliverableComplete(p, t[..n]);
      KindByNumber(p, t[n]);
      JudgedClear(p, t[n]);
    }
  }

  lemma JudgedClear(p: Pending, e: Entry)
    requires p.Judged(e)
    ensures !e.unsequenced ==> e.fragmentsRemaining == Clear(e.fragments)
  {
  }

  /** What was delivered before and what is delivered now make one increasing run. */
  lemma PassDelivers(p: Pending, before: seq<Entry>)
    requires p.Loose() && Delivered(before, p.reliable, p.unreliable)
    ensures var c := Wire(p.reliable);
            Delivered(before + Taken(p), p.reliable, LastUnreliable(c, p.queue[..Scanned(c, p.queue)], p.unreliable))
  {
    hide KindOf, Deliverable, Numbers, LastUnreliable, Scanned, Pending.Judged;
    var c := Wire(p.reliable);
    var t := p.queue[..Scanned(c, p.queue)];
    SortedPrefix(p.queue, |t|);
    DeliveredRising(p, t);
    DeliverableComplete(p, t);
    NumbersConcat(before, Taken(p));
  }

  // ---------- The bytes ----------

  /** What is queued first of packet `m`: all of it, or room for its pieces. */
  ghost predicate BlankFor(m: Message, data: seq<uint8>, fragmentCount: nat) {
    && m.Valid()
    && if m.Fragmented() then fragmentCount == m.Pieces() && |data| == |m.data| else fragmentCount == 0 && data == m.data
  }

  lemma PieceBlank(d: Piece, m: Message)
    ensures IsPiece(d, m) ==> BlankFor(m, seq(d.total, k => 0), d.count)
  {
  }

  lemma BuiltBoth(a: seq<Entry>, b: seq<Entry>, sent: (nat, uint16) -> Message)
    requires Built(a, sent) && Built(b, sent)
    ensures Built(a + b, sent)
  {
    hide Holds;
  }

  lemma {:induction false} InsertBuilt(s: seq<Entry>, at: nat, e: Entry, sent: (nat, uint16) -> Message)
    requires Built(s, sent) && at <= |s| && BlankFor(sent(e.number, e.unreliable), e.data, |e.fragments|)
    requires forall i | 0 <= i < |e.fragments| :: !e.fragments[i]
    ensures Built(s[..at] + [e] + s[at..], sent)
  {
    hide Count, Steps, HasPiece;
    assert Holds(e, sent(e.number, e.unreliable));
    forall x | x in s[..at] + [e] + s[at..] && !x.unsequenced ensures Holds(x, sent(x.number, x.unreliable)) {
      assert x == e || x in s;
    }
  }

  lemma {:induction false} PieceBuilt(s: seq<Entry>, q: nat, d: Piece, e: Entry, sent: (nat, uint16) -> Message)
    requires Built(s, sent) && q < |s| && !s[q].unsequenced && d.number < |s[q].fragments| && d.offset + |d.bytes| <= |s[q].data|
    requires e == s[q].(fragmentsRemaining := e.fragmentsRemaining, fragments := s[q].fragments[d.number := true],
                        data := Copied(s[q].data, d.offset, d.bytes))
    requires IsPiece(d, sent(e.number, e.unreliable))
    ensures Built(s[q := e], sent)
  {
    hide Count, Steps, Copied, HasPiece;
    var m := sent(e.number, e.unreliable);
    assert s[q] in s && Holds(s[q], m);
    forall i | 0 <= i < |e.fragments| && e.fragments[i] ensures HasPiece(e.data, m, i) {
      StoredPiece(s[q].data, m, d.number, i);
    }
    assert Holds(e, m);
    forall x | x in s[q := e] && !x.unsequenced ensures Holds(x, sent(x.number, x.unreliable)) {
      assert x == e || x in s;
    }
  }

  /** A pass puts entries elsewhere, or away, as they are. */
  lemma {:induction false} PassBuilt(p: Pending, exclude: int, sent: (nat, uint16) -> Message)
    requires p.Loose() && Built(p.queue, sent)
    ensures Built(Passed(p, exclude).queue, sent) && Built(Taken(p), sent)
  {
    hide KindOf, Rest, Survivors, LastUnreliable, Scanned, Pending.Judged, Holds, Deliverable, Sorted;
    var c, s := Wire(p.reliable), p.queue;
    var n := Scanned(c, s);
    PassSorted(p, exclude);
    SurvivorsAre(c, s[..n]);
    forall e | e in Passed(p, exclude).queue ensures e in s {
    }
    TakenFrom(c, s[..n]);
  }

  lemma {:induction false} TakenFrom(c: uint16, t: seq<Entry>)
    ensures forall e | e in Deliverable(c, t) :: e in t
  {
    hide KindOf;
    if t != [] {
      TakenFrom(c, t[..|t| - 1]);
    }
  }

  lemma PassIds(p: Pending, exclude: int, next: nat)
    requires p.Loose() && forall k | 0 <= k < |p.queue| :: p.queue[k].id < next
    ensures forall k | 0 <= k < |Passed(p, exclude).queue| :: Passed(p, exclude).queue[k].id < next
  {
    hide KindOf, Rest, Survivors, LastUnreliable, Scanned, Pending.Judged;
    var c, s := Wire(p.reliable), p.queue;
    var n := Scanned(c, s);
    PassSorted(p, exclude);
    SurvivorsAre(c, s[..n]);
    forall k | 0 <= k < |Passed(p, exclude).queue| ensures Passed(p, exclude).queue[k].id < next {
      var e := Passed(p, exclude).queue[k];
      assert e in Passed(p, exclude).queue;
      assert e in s;
    }
  }

  /** The entry spared by a pass is there after it, unless it was delivered. */
  lemma SparedStays(p: Pending, exclude: int, at: nat)
    requires p.Loose() && at < |p.queue| && p.queue[at].id == exclude && !KindOf(Wire(p.reliable), p.queue[at]).Deliver?
    ensures p.queue[at] in Passed(p, exclude).queue
  {
    hide KindOf, Survivors, Undelivered, Only, Scanned, LastUnreliable, Sorted, Pending.Judged;
    var c, s, e := Wire(p.reliable), p.queue, p.queue[at];
    var n := Scanned(c, s);
    var t := s[..n];
    var kept, v := Undelivered(c, t), Survivors(c, t);
    SurvivorsLast(c, t);
    if at < n {
      assert t[at] == e;
      InUndelivered(c, t, e);
      var k :| 0 <= k < |kept| && kept[k] == e;
      var first := kept[..|kept| - |v|];
      if k < |first| {
        assert first[k] == e;
        InOnly(first, exclude, e);
      } else {
        assert v[k - |first|] == e;
      }
    } else {
      assert s[n..][at - n] == e;
    }
  }

  lemma {:induction false} InUndelivered(c: uint16, t: seq<Entry>, e: Entry)
    requires e in t && !KindOf(c, e).Deliver?
    ensures e in Undelivered(c, t)
  {
    hide KindOf;
    if t[|t| - 1] != e {
      InUndelivered(c, t[..|t| - 1], e);
    }
  }

  lemma {:induction false} InOnly(s: seq<Entry>, exclude: int, e: Entry)
    requires e in s && e.id == exclude
    ensures e in Only(s, exclude)
  {
    if s[|s| - 1] != e {
      InOnly(s[..|s| - 1], exclude, e);
    }
  }

  /** Of what was looked at, entry `k` is one of the last two, and from it on all are incomplete. */
  ghost predicate Closing(c: uint16, t: seq<Entry>, k: nat) {
    k < |t| <= k + 2 && forall i | k <= i < |t| :: KindOf(c, t[i]).Hold?
  }

  lemma {:induction false} ClosingSurvives(c: uint16, t: seq<Entry>, k: nat)
    requires Closing(c, t, k)
    ensures t[k] in Survivors(c, t)
  {
    hide KindOf;
    var n := |t|;
    assert KindOf(c, t[n - 1]).Hold? && KindOf(c, t[k]).Hold?;
    if k == n - 2 {
      assert t[n - 2..][0] == t[k];
    } else if n >= 2 && KindOf(c, t[n - 2]).Hold? {
      assert t[n - 2..][1] == t[k];
    } else {
      assert t[n - 1..][0] == t[k];
    }
  }

  lemma {:induction false} SurvivorCloses(c: uint16, t: seq<Entry>, e: Entry) returns (i: nat)
    requires e in Survivors(c, t)
    ensures Closing(c, t, i) && t[i] == e
  {
    hide KindOf;
    SurvivorsAre(c, t);
    i := if e == t[|t| - 1] then |t| - 1 else |t| - 2;
  }

  /** Before the first entry that must wait for a later reliable packet come all those that are incomplete. */
  lemma {:induction false} HoldScanned(p: Pending, k: nat)
    requires p.Loose() && k < |p.queue| && KindOf(Wire(p.reliable), p.queue[k]).Hold?
    ensures k < Scanned(Wire(p.reliable), p.queue)
  {
    hide Scanned, Window, Clear, Sorted, Pending.Judged;
    if k >= Scanned(Wire(p.reliable), p.queue) {
      FutureOn(p, k);
      KindByNumber(p, p.queue[k]);
    }
  }

  /** The queue of sequenced packets holds no entry twice. */
  lemma OnceEach(s: seq<Entry>, i: nat, k: nat)
    requires Sorted(s) && i < |s| && k < |s| && s[i] == s[k] && !s[k].unsequenced
    ensures i == k
  {
  }

  /**
   Which incomplete packets outlive a pass of the dispatcher: the one just queued, and those of the last two that
   end the scanned part of the queue with incomplete packets only.
   */
  lemma {:induction false} SurvivesExactly(p: Pending, exclude: int, k: nat)
    requires p.Loose() && k < |p.queue|
    requires var e := p.queue[k]; !e.unsequenced && e.number == p.reliable && e.fragmentsRemaining > 0
    ensures var c := Wire(p.reliable);
            p.queue[k] in Passed(p, exclude).queue <==>
            p.queue[k].id == exclude || Closing(c, p.queue[..Scanned(c, p.queue)], k)
  {
    hide KindOf, Survivors, Undelivered, Only, Scanned, LastUnreliable, Sorted, Pending.Judged, Closing, Rest;
    var c, s, e := Wire(p.reliable), p.queue, p.queue[k];
    var n := Scanned(c, s);
    var t := s[..n];
    KindByNumber(p, e);
    HoldScanned(p, k);
    assert t[k] == e;
    PassSorted(p, exclude);
    if e.id == exclude {
      SparedStays(p, exclude, k);
    } else if Closing(c, t, k) {
      ClosingSurvives(c, t, k);
      SurvivorStays(p, exclude, e);
    } else if e in Passed(p, exclude).queue {
      NotBehind(p, e);
      var i := SurvivorCloses(c, t, e);
      ClosingInside(c, t, i);
      assert t[i] == s[i];
      OnceEach(s, i, k);
    }
  }

  lemma ClosingInside(c: uint16, t: seq<Entry>, i: nat)
    requires Closing(c, t, i)
    ensures i < |t|
  {
  }

  lemma NotBehind(p: Pending, e: Entry)
    requires p.Loose() && e.number == p.reliable
    ensures e !in p.queue[Scanned(Wire(p.reliable), p.queue)..]
  {
    hide KindOf, Scanned, Pending.Judged, Sorted;
    var n := Scanned(Wire(p.reliable), p.queue);
    forall k | n <= k < |p.queue| ensures p.queue[k] != e {
      FutureOn(p, k);
    }
  }

  lemma SurvivorStays(p: Pending, exclude: int, e: Entry)
    requires var c := Wire(p.reliable); e in Survivors(c, p.queue[..Scanned(c, p.queue)])
    ensures e in Passed(p, exclude).queue
  {
    hide KindOf, Survivors, Undelivered, Only, Scanned, LastUnreliable;
  }

  /** Three incomplete packets follow reliable number `r`, the third just queued, and the pass loses the first. */
  ghost predicate LosesFirst(p: Pending, r: nat) {
    && p.reliable == r && |p.queue| == 3 && p.Loose() && p.Spared(2)
    && (forall k | 0 <= k < 3 :: p.queue[k].number == r && p.queue[k].fragmentsRemaining > 0 && p.queue[k].id == k)
    && Passed(p, 2).queue == p.queue[1..]
  }

  /** It comes to that, whatever the reliable number. */
  lemma {:induction false} FirstOfThreeLost(r: nat)
    ensures exists p: Pending :: LosesFirst(p, r)
  {
    hide KindOf, Scanned, Rest, LastUnreliable;
    var a, b, d := OnePieceOfTwo(0, r, 1), OnePieceOfTwo(1, r, 2), OnePieceOfTwo(2, r, 3);
    var p := Pending(r, 0, [a, b, d]);
    OneClear();
    KindByNumber(p, a);
    KindByNumber(p, b);
    KindByNumber(p, d);
    ThreeHeld(Wire(r), a, b, d);
    assert LosesFirst(p, r);
  }

  /** A packet in two pieces of which the first has arrived. */
  ghost function OnePieceOfTwo(id: nat, r: nat, u: uint16): Entry {
    Entry(id, false, Wire(r), u, 1, [true, false], [], r)
  }

  lemma OneClear()
    ensures Clear([true, false]) == 1
  {
    assert [true, false][..1] == [true];
    assert Clear([true]) == 0;
  }

  lemma {:induction false} ThreeHeld(c: uint16, a: Entry, b: Entry, d: Entry)
    requires KindOf(c, a).Hold? && KindOf(c, b).Hold? && KindOf(c, d).Hold? && d.id != a.id
    ensures var s := [a, b, d]; Rest(c, s, d.id) == [b, d] && LastUnreliable(c, s[..Scanned(c, s)], 0) == 0
  {
    hide KindOf;
    var s := [a, b, d];
    assert s[1..] == [b, d] && [b, d][1..] == [d] && [d][1..] == [];
    assert Scanned(c, [d]) == 1 && Scanned(c, [b, d]) == 2 && Scanned(c, s) == 3;
    assert s[..3] == s && s[..2] == [a, b] && [a, b][..1] == [a];
    assert Undelivered(c, [a]) == [a] && Undelivered(c, [a, b]) == [a, b] && Undelivered(c, s) == s;
    assert LastUnreliable(c, [a], 0) == 0 && LastUnreliable(c, [a, b], 0) == 0;
    assert s[..1] == [a] && Only([a], d.id) == [];
  }

  /** Every complete packet that follows the current reliable number is delivered. */
  lemma TakesComplete(p: Pending, at: nat)
    requires p.Loose() && at < |p.queue|
    requires var e := p.queue[at]; !e.unsequenced && e.number == p.reliable && e.fragmentsRemaining == 0
    ensures p.queue[at] in Taken(p)
  {
    hide KindOf, Scanned, Deliverable, Pending.Judged;
    var c, e := Wire(p.reliable), p.queue[at];
    ScannedTo(p, at);
    KindByNumber(p, e);
    assert p.queue[..Scanned(c, p.queue)][at] == e;
    InDeliverable(c, p.queue[..Scanned(c, p.queue)], e);
  }

  lemma {:induction false} InDeliverable(c: uint16, t: seq<Entry>, e: Entry)
    requires e in t && KindOf(c, e).Deliver?
    ensures e in Deliverable(c, t)
  {
    hide KindOf;
    if t[|t| - 1] != e {
      InDeliverable(c, t[..|t| - 1], e);
    }
  }

  /** What waits for a later reliable number stays. */
  lemma FutureStays(p: Pending, exclude: int, at: nat)
    requires p.Loose() && at < |p.queue| && KindOf(Wire(p.reliable), p.queue[at]).Future?
    ensures p.queue[at] in Passed(p, exclude).queue
  {
    hide KindOf, Survivors, Undelivered, Only, LastUnreliable, Pending.Loose;
    var n := Scanned(Wire(p.reliable), p.queue);
    assert p.queue[n..][at - n] == p.queue[at];
  }

  lemma NothingPending(n: nat)
    ensures Passed(Pending(n, 0, []), -1) == Pending(n, 0, []) && Taken(Pending(n, 0, [])) == []
  {
  }

  // ---------- A piece ----------

  predicate IsFor(e: Entry, id: nat, r: uint16, u: uint16, d: Piece) {
    e.id == id && e.reliable == r && e.unreliable == u && Agrees(e, d)
  }

  /** The piece says of its packet what the entry says. */
  predicate Agrees(e: Entry, d: Piece) {
    |e.fragments| == d.count && |e.data| == d.total
  }

  /** The piece fits into the entry at `q`. */
  ghost predicate Goes(p: Pending, q: nat, d: Piece) {
    q < |p.queue| && d.number < |p.queue[q].fragments| && d.offset + |d.bytes| <= |p.queue[q].data|
  }

  /** The queue with piece `d` put into the entry at `q`, which lacked it. */
  ghost function PieceIn(p: Pending, q: nat, d: Piece): Pending
    requires Goes(p, q, d) && p.queue[q].fragmentsRemaining > 0
  {
    var e := p.queue[q];
    p.(queue := p.queue[q := e.(fragmentsRemaining := e.fragmentsRemaining - 1, fragments := e.fragments[d.number := true],
                                data := Copied(e.data, d.offset, d.bytes))])
  }

  ghost predicate Completes(p: Pending, q: nat, i: nat)
    requires q < |p.queue| && i < |p.queue[q].fragments|
  {
    !p.queue[q].fragments[i] && p.queue[q].fragmentsRemaining == 1
  }

  ghost function AfterPiece(p: Pending, q: nat, d: Piece): Pending
    requires Goes(p, q, d)
  {
    if p.queue[q].fragments[d.number] || p.queue[q].fragmentsRemaining == 0 then p
    else if Completes(p, q, d.number) then Passed(PieceIn(p, q, d), -1)
    else PieceIn(p, q, d)
  }

  ghost function TakenByPiece(p: Pending, q: nat, d: Piece): seq<Entry>
    requires Goes(p, q, d)
  {
    if Completes(p, q, d.number) then Taken(PieceIn(p, q, d)) else []
  }

  /** The packet numbered `u` after `n` went out complete, or is in the queue with piece `i` in it. */
  ghost predicate Landed(p: Pending, taken: seq<Entry>, n: nat, u: uint16, i: nat) {
    || (|taken| == 1 && taken[0].number == n && taken[0].unreliable == u && Clear(taken[0].fragments) == 0)
    || (taken == [] && exists e: Entry :: e in p.queue && e.number == n && e.unreliable == u && i < |e.fragments| && e.fragments[i])
  }

  lemma LooseJudged(p: Pending, k: nat)
    requires p.Loose() && k < |p.queue|
    ensures p.Judged(p.queue[k])
  {
  }

  lemma PieceLands(p: Pending, q: nat, d: Piece)
    requires p.Valid() && Goes(p, q, d)
    ensures Landed(AfterPiece(p, q, d), TakenByPiece(p, q, d), p.queue[q].number, p.queue[q].unreliable, d.number)
  {
    hide Clear, Window, KindOf, Pending.Loose, Passed, Taken, Copied;
    var e, i := p.queue[q], d.number;
    assert p.Judged(e) && p.Waiting(e);
    if e.fragments[i] {
      assert e in p.queue;
    } else {
      ClearOne(e.fragments, i);
      var p1 := PieceIn(p, q, d);
      var x := p1.queue[q];
      PieceLoose(p, q, x, 1 + MaxId(p.queue));
      assert p1 == p.(queue := p.queue[q := x]);
      if Completes(p, q, i) {
        CompletedTaken(p, q, x);
        LooseJudged(p1, q);
        KindByNumber(p1, x);
        if x.number > p.reliable {
          FutureStays(p1, -1, q);
        }
      } else {
        assert x in p1.queue;
      }
    }
  }

  /** A number above all ids. */
  ghost function MaxId(s: seq<Entry>): (m: nat)
    ensures forall k | 0 <= k < |s| :: s[k].id < m + 1
  {
    if s == [] then 0
    else
      var m := MaxId(s[..|s| - 1]);
      if s[|s| - 1].id > m then s[|s| - 1].id else m
  }

  /** The completed packet goes out, alone, if its reliable number is current. */
  lemma CompletedTaken(p: Pending, q: nat, x: Entry)
    requires p.Valid() && q < |p.queue| && p.(queue := p.queue[q := x]).Loose()
    requires !x.unsequenced && x.number == p.queue[q].number && x.fragmentsRemaining == 0
    ensures Taken(p.(queue := p.queue[q := x])) == if x.number == p.reliable then [x] else []
  {
    hide KindOf, Scanned, Pending.Valid, Pending.Judged;
    var p1, c := p.(queue := p.queue[q := x]), Wire(p.reliable);
    var t := p1.queue[..Scanned(c, p1.queue)];
    WaitingReach(p, q);
    assert p1.Judged(p1.queue[q]) && p1.queue[q] == x;
    KindByNumber(p1, x);
    forall k | 0 <= k < |p1.queue| && k != q ensures KindOf(c, p1.queue[k]) != Deliver {
      WaitingReach(p, k);
    }
    OneDeliverable(c, t, q);
    if x.number == p.reliable {
      ScannedTo(p1, q);
    }
  }

  // ---------- Inserting ----------

  lemma FreshReach(p: Pending, n: nat, u: uint16)
    requires Fresh(p, n, u)
    ensures p.reliable <= n < p.reliable + 0x1_0000
  {
    WithinReach(p.reliable, n);
  }

  /** With a place of its own, a packet is not in the queue yet. */
  lemma PlaceNew(p: Pending, n: nat, u: uint16, at: nat)
    requires p.Valid() && PlaceFor(Wire(p.reliable), p.queue, Wire(n), u, at)
    ensures forall q | 0 <= q < |p.queue| :: !(p.queue[q].number == n && p.queue[q].unreliable == u)
  {
    hide KindOf, Window, Ahead;
    forall q | 0 <= q < |p.queue| ensures !(p.queue[q].number == n && p.queue[q].unreliable == u) {
      WaitingReach(p, q);
    }
  }

  /** `e` was put where it belongs, and the dispatcher passed over the queue, sparing it. */
  ghost predicate Inserted(p: Pending, e: Entry, p': Pending) {
    exists at: nat :: at <= |p.queue| && PlaceFor(Wire(p.reliable), p.queue, e.reliable, e.unreliable, at)
                      && p' == Passed(With(p, at, e), e.id)
  }

  ghost predicate InTime(r: nat, n: nat) {
    if n < r then r <= n + 0x1_0000 && Window(r) <= Window(n) + WINDOWS - FREE_WINDOWS + 1 else n < r + 0x1_0000
  }

  /** Neither overtaken nor too far ahead. */
  ghost predicate Fresh(p: Pending, n: nat, u: uint16) {
    && p.reliable <= n && Window(n) < Window(p.reliable) + FREE_WINDOWS - 1
    && (n == p.reliable ==> u > p.unreliable)
  }

  lemma LetInUnreliable(p: Pending, n: nat, u: uint16)
    requires InTime(p.reliable, n)
    ensures var c, r := Wire(p.reliable), Wire(n);
            Accepts(c, r) && !(r == c && u <= p.unreliable) <==> Fresh(p, n, u)
  {
    if n < p.reliable {
      OldNumber(p.reliable, n);
    } else {
      NewNumber(p.reliable, n);
      WireDistinct(p.reliable, n);
    }
  }

  /** Order in the queue by wire numbers, going round from `c`. */
  ghost predicate Less(c: uint16, r: uint16, u: uint16, r': uint16, u': uint16) {
    Ahead(c, r) < Ahead(c, r') || (r == r' && u < u')
  }

  ghost predicate OrderedFrom(c: uint16, s: seq<Entry>) {
    forall p, q | 0 <= p < q < |s| :: Less(c, s[p].reliable, s[p].unreliable, s[q].reliable, s[q].unreliable)
  }

  ghost predicate PlaceFor(c: uint16, s: seq<Entry>, r: uint16, u: uint16, at: nat) {
    && at <= |s|
    && (forall q | 0 <= q < at :: Less(c, s[q].reliable, s[q].unreliable, r, u))
    && (forall q | at <= q < |s| :: Less(c, r, u, s[q].reliable, s[q].unreliable))
  }

  /** Within reach, order by wire numbers is order by true numbers. */
  lemma LessTruly(r: nat, a: nat, u: uint16, b: nat, v: uint16)
    requires r <= a < r + 0x1_0000 && r <= b < r + 0x1_0000
    ensures Less(Wire(r), Wire(a), u, Wire(b), v) <==> a < b || (a == b && u < v)
    ensures Wire(a) == Wire(b) <==> a == b
  {
    hide Ahead, Wire;
    AheadTrue(r, a);
    AheadTrue(r, b);
    if a <= b {
      WireDistinct(a, b);
    } else {
      WireDistinct(b, a);
    }
  }

  lemma WaitingReach(p: Pending, k: nat)
    requires p.Valid() && k < |p.queue|
    ensures var e := p.queue[k];
            && !e.unsequenced && e.reliable == Wire(e.number) && p.reliable <= e.number < p.reliable + 0x1_0000
            && KindOf(Wire(p.reliable), e) != Deliver
  {
    hide KindOf;
    var e := p.queue[k];
    assert p.Judged(e) && p.Waiting(e);
    WithinReach(p.reliable, e.number);
    KindByNumber(p, e);
  }

  lemma PendingOrdered(p: Pending)
    requires p.Valid()
    ensures OrderedFrom(Wire(p.reliable), p.queue)
  {
    hide Less, KindOf, Ahead, Wire;
    var s := p.queue;
    forall i, j | 0 <= i < j < |s|
      ensures Less(Wire(p.reliable), s[i].reliable, s[i].unreliable, s[j].reliable, s[j].unreliable)
    {
      WaitingReach(p, i);
      WaitingReach(p, j);
      assert Before(s[i], s[j]);
      LessTruly(p.reliable, s[i].number, s[i].unreliable, s[j].number, s[j].unreliable);
    }
  }

  lemma SamePair(p: Pending, n: nat, u: uint16, q: nat)
    requires p.Valid() && p.reliable <= n < p.reliable + 0x1_0000
    requires q < |p.queue| && p.queue[q].reliable == Wire(n) && p.queue[q].unreliable == u
    ensures p.queue[q].number == n
  {
    hide Less, KindOf, Ahead, Wire, Pending.Valid;
    WaitingReach(p, q);
    LessTruly(p.reliable, p.queue[q].number, u, n, u);
  }

  ghost function With(p: Pending, at: nat, e: Entry): Pending
    requires at <= |p.queue|
  {
    p.(queue := p.queue[..at] + [e] + p.queue[at..])
  }

  lemma WithEntries(p: Pending, at: nat, e: Entry)
    requires at <= |p.queue|
    ensures |With(p, at, e).queue| == |p.queue| + 1
    ensures forall k | 0 <= k <= |p.queue| :: With(p, at, e).queue[k] == if k < at then p.queue[k] else if k == at then e else p.queue[k - 1]
  {
  }

  lemma InsertLoose(p: Pending, n: nat, u: uint16, at: nat, e: Entry)
    requires p.Valid() && Fresh(p, n, u) && u >= 1 && PlaceFor(Wire(p.reliable), p.queue, Wire(n), u, at)
    requires !e.unsequenced && e.reliable == Wire(n) && e.unreliable == u && e.number == n
    requires e.fragmentsRemaining == |e.fragments| && e.fragments == seq(e.fragmentsRemaining, i => false)
    requires forall k | 0 <= k < |p.queue| :: p.queue[k].id < e.id
    ensures With(p, at, e).Loose() && With(p, at, e).Spared(e.id)
    ensures at <= Scanned(Wire(p.reliable), With(p, at, e).queue) || n > p.reliable
    ensures KindOf(Wire(p.reliable), e) == if n > p.reliable then Future else if e.fragmentsRemaining == 0 then Deliver else Hold
  {
    hide KindOf, Less, Ahead, Scanned;
    var p' := With(p, at, e);
    var s, c := p'.queue, Wire(p.reliable);
    WithEntries(p, at, e);
    ClearAll(e.fragments);
    assert p'.Judged(e);
    KindByNumber(p', e);
    WithinReach(p.reliable, n);
    forall k | 0 <= k < |p.queue| ensures p'.Judged(p.queue[k]) && (if k < at then Before(p.queue[k], e) else Before(e, p.queue[k])) {
      WaitingReach(p, k);
      LessTruly(p.reliable, p.queue[k].number, p.queue[k].unreliable, n, u);
      LessTruly(p.reliable, n, u, p.queue[k].number, p.queue[k].unreliable);
      assert p.Judged(p.queue[k]);
    }
    forall k | 0 <= k < |p.queue| ensures KindOf(c, p.queue[k]) != Deliver && p.queue[k].id != e.id {
      WaitingReach(p, k);
    }
    if n == p.reliable {
      ScannedTo(p', at);
    }
  }

  /** Entries up to the last reliable number are scanned. */
  lemma ScannedTo(p: Pending, at: nat)
    requires p.Loose() && at < |p.queue| && p.queue[at].number <= p.reliable && !p.queue[at].unsequenced
    ensures at < Scanned(Wire(p.reliable), p.queue)
  {
    hide KindOf, Scanned, Window, Clear;
    if Scanned(Wire(p.reliable), p.queue) <= at {
      FutureOn(p, at);
    }
  }

  /** Of a queue without anything deliverable and one entry more, that entry is taken, if it is at all. */
  lemma InsertTaken(p: Pending, at: nat, e: Entry)
    requires at <= |p.queue| && p.Valid()
    requires var c := Wire(p.reliable); at <= Scanned(c, With(p, at, e).queue) || !KindOf(c, e).Deliver?
    ensures Taken(With(p, at, e)) == if KindOf(Wire(p.reliable), e).Deliver? then [e] else []
  {
    hide KindOf, Scanned, Pending.Valid;
    var c, s := Wire(p.reliable), With(p, at, e).queue;
    var n := Scanned(c, s);
    WithEntries(p, at, e);
    forall k | 0 <= k < |s| && k != at ensures KindOf(c, s[k]) != Deliver {
      WaitingReach(p, if k < at then k else k - 1);
    }
    if KindOf(c, e).Deliver? {
      assert s[at] == e && at < n;
    }
    OneDeliverable(c, s[..n], at);
  }

  lemma {:induction false} OneDeliverable(c: uint16, t: seq<Entry>, at: nat)
    requires forall k | 0 <= k < |t| && k != at :: KindOf(c, t[k]) != Deliver
    ensures Deliverable(c, t) == if at < |t| && KindOf(c, t[at]).Deliver? then [t[at]] else []
  {
    hide KindOf;
    if t != [] {
      var s := t[..|t| - 1];
      OneDeliverable(c, s, at);
      assert forall k | 0 <= k < |s| :: s[k] == t[k];
    }
  }

  lemma FrontLoose(p: Pending, e: Entry)
    requires p.Valid() && e.unsequenced && forall k | 0 <= k < |p.queue| :: p.queue[k].id < e.id
    ensures With(p, 0, e) == p.(queue := [e] + p.queue)
    ensures With(p, 0, e).Loose() && With(p, 0, e).Spared(e.id) && KindOf(Wire(p.reliable), e) == Deliver
  {
    hide Window, Clear;
    WithEntries(p, 0, e);
    var p' := With(p, 0, e);
    assert p.queue[..0] == [] && p.queue[0..] == p.queue;
    assert forall k | 0 <= k < |p.queue| :: p.Judged(p.queue[k]) && p'.Judged(p.queue[k]);
  }

  lemma SparedNone(p: Pending, next: nat)
    requires forall k | 0 <= k < |p.queue| :: p.queue[k].id < next
    ensures p.Spared(-1)
  {
  }

  lemma EmptyValid(p: Pending)
    requires p.queue == []
    ensures p.Valid()
  {
  }

  lemma PieceLoose(p: Pending, q: nat, e: Entry, next: nat)
    requires p.Valid() && q < |p.queue| && (forall k | 0 <= k < |p.queue| :: p.queue[k].id < next)
    requires e == p.queue[q].(fragmentsRemaining := e.fragmentsRemaining, fragments := e.fragments, data := e.data)
    requires e.fragmentsRemaining == Clear(e.fragments)
    ensures var p' := p.(queue := p.queue[q := e]);
            p'.Loose() && p'.Spared(-1) && (e.fragmentsRemaining > 0 ==> p'.Valid())
  {
    hide Window, Clear;
    var p' := p.(queue := p.queue[q := e]);
    assert p.Judged(p.queue[q]) && p.Waiting(p.queue[q]);
    forall k | 0 <= k < |p'.queue| ensures p'.Judged(p'.queue[k]) && !p'.queue[k].unsequenced {
      assert p.Judged(p.queue[k]) && p.Waiting(p.queue[k]);
    }
    forall k | 0 <= k < |p'.queue| && e.fragmentsRemaining > 0 ensures p'.Waiting(p'.queue[k]) {
      assert p.Waiting(p.queue[k]);
    }
  }

  /** What waited follows the new number, waits for a later one, or has been overtaken by at most nine windows. */
  lemma AdvanceLoose(p: Pending, n: nat)
    requires p.Valid() && p.reliable < n && Window(n) <= Window(p.reliable) + WINDOWS - FREE_WINDOWS + 1
    ensures Pending(n, 0, p.queue).Loose()
  {
    hide Clear;
    var p' := Pending(n, 0, p.queue);
    forall k | 0 <= k < |p.queue| ensures p'.Judged(p.queue[k]) && !p.queue[k].unsequenced {
      var e := p.queue[k];
      assert p.Judged(e) && p.Waiting(e);
      WindowMonotone(p.reliable, e.number);
      WindowMonotone(p.reliable, n);
      NineWindows(e.number, n);
    }
  }

  lemma NineWindows(m: nat, n: nat)
    requires Window(n) <= Window(m) + WINDOWS - FREE_WINDOWS + 1
    ensures n <= m + 0x1_0000
  {
  }
}
