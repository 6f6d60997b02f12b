/** Escape counting over whole runs of the tracker: what the bounded evidence and the count say about
    the distinct identities that were ever seen outside the owned group. */
module Escapes {
  import opened Common
  import opened Identity
  import opened Tracking

  /** `ever` is every identity the tracker has seen escaping so far. */
  ghost predicate MarksKnown(tracked: seq<TrackedProcess>, evidence: set<ProcessIdentity>, ever: set<ProcessIdentity>) {
    forall p :: p in tracked && p.escaped ==>
      p.identity in ever && (p.identity in evidence || |evidence| == MAX_ESCAPED_EVIDENCE)
  }

  ghost predicate Counts(evidence: set<ProcessIdentity>, count: u64, ever: set<ProcessIdentity>) {
    && evidence <= ever && |evidence| <= MAX_ESCAPED_EVIDENCE
    && Min(|ever|, U64_MAX) <= count
    && (|ever| <= MAX_ESCAPED_EVIDENCE ==> evidence == ever && count == |ever|)
  }

  ghost predicate EscapeInv(t: Tracker, ever: set<ProcessIdentity>) {
    Counts(t.escaped, t.escapedCount, ever) && MarksKnown(t.tracked, t.escaped, ever)
  }

  /** A process that can be told apart, and is the root's, the group's, a descendant, or known from before. */
  ghost predicate Belongs(root: ProcessIdentity, group: i32, followed: set<ProcessIdentity>, os: seq<Observation>,
                          o: Observation)
  {
    && o.identity.pid > 0 && o.identity.startAbstime != 0
    && (o.identity == root || o.processGroupId == group || DescendsFrom(os, o, root.pid) || o.identity in followed)
  }

  /** A live process outside the group that descends from the root or was followed before. */
  ghost predicate SeenOutside(root: ProcessIdentity, group: i32, followed: set<ProcessIdentity>, os: seq<Observation>,
                              o: Observation)
  {
    && o.identity.pid > 0 && o.identity.startAbstime != 0 && !o.exited
    && o.identity != root && o.processGroupId != group
    && (DescendsFrom(os, o, root.pid) || o.identity in followed)
  }

  ghost function BelongingTo(root: ProcessIdentity, group: i32, followed: set<ProcessIdentity>, os: seq<Observation>)
    : set<ProcessIdentity>
  {
    set o | o in os && Belongs(root, group, followed, os, o) :: o.identity
  }

  ghost function OutsideOf(root: ProcessIdentity, group: i32, followed: set<ProcessIdentity>, os: seq<Observation>)
    : set<ProcessIdentity>
  {
    set o | o in os && SeenOutside(root, group, followed, os, o) :: o.identity
  }

  lemma {:induction false} FindsTheTracked(tracked: seq<TrackedProcess>, identity: ProcessIdentity)
    ensures Find(tracked, identity).Some? <==> identity in Identities(tracked)
  {
    if tracked != [] {
      FindsTheTracked(tracked[1..], identity);
      assert tracked == [tracked[0]] + tracked[1..];
    }
  }

  ghost predicate SeenEscaping(t: Tracker, os: seq<Observation>, o: Observation) {
    SeenOutside(t.root, t.ownedGroup, Identities(t.tracked), os, o)
  }

  /** The update follows exactly what belongs, and counts exactly what it sees outside. */
  lemma UpdateFilters(t: Tracker, os: seq<Observation>, o: Observation)
    ensures Relevant(t, os, o) <==> Belongs(t.root, t.ownedGroup, Identities(t.tracked), os, o)
    ensures Relevant(t, os, o) && Escaping(t, o) <==> SeenEscaping(t, os, o)
  {
    FindsTheTracked(t.tracked, o.identity);
  }

  ghost function EverAfter(t: Tracker, os: seq<Observation>, ever: set<ProcessIdentity>, k: nat): set<ProcessIdentity>
    requires k <= |os|
  {
    if k == 0 then ever
    else EverAfter(t, os, ever, k - 1) + if SeenEscaping(t, os, os[k - 1]) then {os[k - 1].identity} else {}
  }

  lemma CountOne(evidence: set<ProcessIdentity>, count: u64, ever: set<ProcessIdentity>, id: ProcessIdentity, counted: bool)
    requires Counts(evidence, count, ever)
    requires counted ==> id in ever
    requires !counted ==> id !in evidence
    ensures Counts(if |evidence| < MAX_ESCAPED_EVIDENCE then evidence + {id} else evidence,
                   if counted then count else SatAdd64(count, 1), ever + {id})
  {
    if id in ever {
      assert ever + {id} == ever;
    } else {
      assert |ever + {id}| == |ever| + 1;
    }
    if id in evidence {
      assert evidence + {id} == evidence;
    } else {
      assert |evidence + {id}| == |evidence| + 1;
    }
  }

  function WithEvidence(evidence: set<ProcessIdentity>, id: ProcessIdentity): set<ProcessIdentity> {
    if |evidence| < MAX_ESCAPED_EVIDENCE then evidence + {id} else evidence
  }

  /** Counting an escape keeps every mark known, and lets its own process be marked. */
  lemma MarksGrow(tracked: seq<TrackedProcess>, evidence: set<ProcessIdentity>, count: u64, ever: set<ProcessIdentity>,
                  id: ProcessIdentity, parent: i32)
    requires MarksKnown(tracked, evidence, ever) && Counts(evidence, count, ever)
    ensures MarksKnown(tracked, WithEvidence(evidence, id), ever + {id})
    ensures MarksKnown(tracked + [TrackedProcess(id, parent, true)], WithEvidence(evidence, id), ever + {id})
    ensures evidence <= WithEvidence(evidence, id)
  {
    if id in evidence {
      assert evidence + {id} == evidence;
    } else {
      assert |evidence + {id}| == |evidence| + 1;
    }
  }

  /** What one scanned observation keeps, and what it never takes back. */
  lemma ScanOneKeeps(t: Tracker, os: seq<Observation>, s: Scan, o: Observation, ever: set<ProcessIdentity>)
    requires Counts(s.evidence, s.count, ever)
    requires MarksKnown(t.tracked, s.evidence, ever) && MarksKnown(s.tracked, s.evidence, ever)
    ensures var n := ScanOne(t, os, s, o);
            var now := ever + if SeenEscaping(t, os, o) then {o.identity} else {};
            && Counts(n.evidence, n.count, now) && s.count <= n.count && s.evidence <= n.evidence
            && MarksKnown(t.tracked, n.evidence, now) && MarksKnown(n.tracked, n.evidence, now)
  {
    UpdateFilters(t, os, o);
    hide Relevant, Escaping, SeenEscaping;
    if Relevant(t, os, o) {
      FindFinds(t.tracked, o.identity);
      var counted := AlreadyCounted(t, s.evidence, o);
      if Escaping(t, o) {
        CountOne(s.evidence, s.count, ever, o.identity, counted);
        MarksGrow(t.tracked, s.evidence, s.count, ever, o.identity, o.parentPid);
        MarksGrow(s.tracked, s.evidence, s.count, ever, o.identity, o.parentPid);
        hide MarksKnown, Counts;
      } else {
        assert ever + {} == ever;
      }
    } else {
      assert ever + {} == ever;
    }
  }

  lemma {:induction false} ScanKeeps(t: Tracker, os: seq<Observation>, ever: set<ProcessIdentity>, k: nat)
    requires EscapeInv(t, ever) && k <= |os|
    ensures var s := ScanAll(t, os, k);
            var now := EverAfter(t, os, ever, k);
            && Counts(s.evidence, s.count, now) && t.escapedCount <= s.count && t.escaped <= s.evidence
            && MarksKnown(t.tracked, s.evidence, now) && MarksKnown(s.tracked, s.evidence, now)
  {
    hide ScanOne, SeenEscaping, Counts, MarksKnown;
    if k == 0 {
      NoMarks(t.escaped, ever);
      StartOfScan(t, ever);
    } else {
      ScanKeeps(t, os, ever, k - 1);
      ScanOneKeeps(t, os, ScanAll(t, os, k - 1), os[k - 1], EverAfter(t, os, ever, k - 1));
    }
  }

  lemma NoMarks(evidence: set<ProcessIdentity>, ever: set<ProcessIdentity>)
    ensures MarksKnown([], evidence, ever)
  {
  }

  lemma StartOfScan(t: Tracker, ever: set<ProcessIdentity>)
    requires EscapeInv(t, ever)
    ensures Counts(t.escaped, t.escapedCount, ever) && MarksKnown(t.tracked, t.escaped, ever)
  {
  }

  /** The tracker after the first `k` snapshots. */
  ghost function TrackerAfter(t: Tracker, snapshots: seq<Snapshot>, k: nat): Tracker
    requires k <= |snapshots|
  {
    if k == 0 then t else UpdateOf(TrackerAfter(t, snapshots, k - 1), snapshots[k - 1]).tracker
  }

  /** The identities followed after the first `k` snapshots, told from the snapshots alone. */
  ghost function Followed(root: ProcessIdentity, group: i32, snapshots: seq<Snapshot>, k: nat): set<ProcessIdentity>
    requires k <= |snapshots|
  {
    if k == 0 then {}
    else
      var os := ByPid(snapshots[k - 1].observations);
      BelongingTo(root, group, Followed(root, group, snapshots, k - 1), os)
  }

  /** The distinct identities seen outside the group in the first `k` snapshots, likewise. */
  ghost function EverEscaped(root: ProcessIdentity, group: i32, snapshots: seq<Snapshot>, k: nat): set<ProcessIdentity>
    requires k <= |snapshots|
  {
    if k == 0 then {}
    else
      var os := ByPid(snapshots[k - 1].observations);
      EverEscaped(root, group, snapshots, k - 1)
      + OutsideOf(root, group, Followed(root, group, snapshots, k - 1), os)
  }

  lemma {:induction false} EverAfterAll(t: Tracker, os: seq<Observation>, ever: set<ProcessIdentity>, k: nat)
    requires k <= |os|
    ensures EverAfter(t, os, ever, k) == ever + set o | o in os[..k] && SeenEscaping(t, os, o) :: o.identity
  {
    hide SeenEscaping;
    if k > 0 {
      EverAfterAll(t, os, ever, k - 1);
      assert os[..k] == os[..k - 1] + [os[k - 1]];
    }
  }

  lemma NoIdentities()
    ensures Identities([]) == {}
  {
  }

  lemma IdentitiesOfNext(tracked: seq<TrackedProcess>, p: TrackedProcess)
    ensures Identities(tracked + [p]) == Identities(tracked) + {p.identity}
  {
    assert forall x :: x in tracked + [p] <==> x in tracked || x == p;
  }

  lemma ScanOneTracks(t: Tracker, os: seq<Observation>, s: Scan, o: Observation)
    ensures Identities(ScanOne(t, os, s, o).tracked)
         == Identities(s.tracked) + if Relevant(t, os, o) then {o.identity} else {}
  {
    hide Relevant, Escaping, AlreadyCounted, Identities;
    if Relevant(t, os, o) {
      IdentitiesOfNext(s.tracked,
                       TrackedProcess(o.identity, o.parentPid, AlreadyCounted(t, s.evidence, o) || Escaping(t, o)));
    }
  }

  lemma {:induction false} ScanTracks(t: Tracker, os: seq<Observation>, k: nat)
    requires k <= |os|
    ensures Identities(ScanAll(t, os, k).tracked)
         == set o | o in os[..k] && Belongs(t.root, t.ownedGroup, Identities(t.tracked), os, o) :: o.identity
  {
    hide Relevant, Escaping, Belongs, Identities, ScanOne;
    if k == 0 {
      NoIdentities();
    } else {
      ScanTracks(t, os, k - 1);
      ScanOneTracks(t, os, ScanAll(t, os, k - 1), os[k - 1]);
      UpdateFilters(t, os, os[k - 1]);
      assert os[..k] == os[..k - 1] + [os[k - 1]];
    }
  }

  /** After an update the tracker follows exactly the processes of the snapshot that belong to it. */
  lemma UpdateFollows(t: Tracker, snapshot: Snapshot)
    ensures var os := ByPid(snapshot.observations);
            Identities(UpdateOf(t, snapshot).tracker.tracked)
            == BelongingTo(t.root, t.ownedGroup, Identities(t.tracked), os)
  {
    hide Belongs, ScanAll, AggregateOf;
    var os := ByPid(snapshot.observations);
    ScanTracks(t, os, |os|);
    assert os[..|os|] == os;
  }

  lemma UpdateKeeps(t: Tracker, snapshot: Snapshot, ever: set<ProcessIdentity>)
    requires EscapeInv(t, ever)
    ensures var os := ByPid(snapshot.observations);
            var n := UpdateOf(t, snapshot).tracker;
            EscapeInv(n, EverAfter(t, os, ever, |os|)) && t.escapedCount <= n.escapedCount && t.escaped <= n.escaped
  {
    var os := ByPid(snapshot.observations);
    ScanKeeps(t, os, ever, |os|);
  }

  /** The tracker's identity, and what it follows, after a run of snapshots. */
  ghost predicate Follows(t: Tracker, root: ProcessIdentity, group: i32, followed: set<ProcessIdentity>) {
    t.root == root && t.ownedGroup == group && Identities(t.tracked) == followed
  }

  /** Over every sequence of snapshots of a fresh tracker: it follows exactly the processes that belong to
      it, told from the snapshots alone. The evidence never exceeds 64 identities and only ever names
      processes seen outside the group; the count is at least the number of distinct ones and equals both it
      and the evidence size while at most 64 have escaped; and an escape mark carried by a tracked process
      means the identity is in evidence or the evidence is full. */
  lemma {:induction false} EscapeCounting(root: ProcessIdentity, ownedGroup: i32, snapshots: seq<Snapshot>, k: nat)
    requires k <= |snapshots|
    ensures var initial := Tracker(root, ownedGroup, [], {}, 0, false);
            var now := TrackerAfter(initial, snapshots, k);
            && Follows(now, root, ownedGroup, Followed(root, ownedGroup, snapshots, k))
            && EscapeInv(now, EverEscaped(root, ownedGroup, snapshots, k))
  {
    hide UpdateOf, EscapeInv, BelongingTo, OutsideOf, Follows;
    var t := Tracker(root, ownedGroup, [], {}, 0, false);
    if k == 0 {
      NothingEscaped(t);
    } else {
      EscapeCounting(root, ownedGroup, snapshots, k - 1);
      UpdateCounts(TrackerAfter(t, snapshots, k - 1), snapshots[k - 1], root, ownedGroup,
                   Followed(root, ownedGroup, snapshots, k - 1), EverEscaped(root, ownedGroup, snapshots, k - 1));
    }
  }

  lemma UpdateCounts(t: Tracker, snapshot: Snapshot, root: ProcessIdentity, group: i32, followed: set<ProcessIdentity>,
                     ever: set<ProcessIdentity>)
    requires Follows(t, root, group, followed) && EscapeInv(t, ever)
    ensures var os := ByPid(snapshot.observations);
            var n := UpdateOf(t, snapshot).tracker;
            && Follows(n, root, group, BelongingTo(root, group, followed, os))
            && EscapeInv(n, ever + OutsideOf(root, group, followed, os))
  {
    hide UpdateOf, EscapeInv, BelongingTo, OutsideOf, Identities, ByPid;
    var os := ByPid(snapshot.observations);
    UpdateFollows(t, snapshot);
    UpdateKeepsNames(t, snapshot);
    UpdateKeeps(t, snapshot, ever);
    EverAfterUpdate(t, os, ever);
  }

  lemma EverAfterUpdate(t: Tracker, os: seq<Observation>, ever: set<ProcessIdentity>)
    ensures EverAfter(t, os, ever, |os|) == ever + OutsideOf(t.root, t.ownedGroup, Identities(t.tracked), os)
  {
    hide SeenOutside;
    EverAfterAll(t, os, ever, |os|);
    assert os[..|os|] == os;
  }

  lemma NothingEscaped(t: Tracker)
    requires t.tracked == [] && t.escaped == {} && t.escapedCount == 0
    ensures EscapeInv(t, {}) && Follows(t, t.root, t.ownedGroup, {})
  {
  }

  lemma UpdateKeepsNames(t: Tracker, snapshot: Snapshot)
    ensures UpdateOf(t, snapshot).tracker.root == t.root && UpdateOf(t, snapshot).tracker.ownedGroup == t.ownedGroup
  {
  }

  /** Whoever is followed is remembered with the parent it was just observed with. */
  lemma {:induction false} ParentsAreRemembered(t: Tracker, os: seq<Observation>, k: nat)
    requires k <= |os|
    ensures forall p :: p in ScanAll(t, os, k).tracked ==>
              exists i :: 0 <= i < k && os[i].identity == p.identity && os[i].parentPid == p.parentPid
  {
    hide Relevant, Escaping, AlreadyCounted;
    if k > 0 {
      ParentsAreRemembered(t, os, k - 1);
      var before, now := ScanAll(t, os, k - 1).tracked, ScanAll(t, os, k).tracked;
      assert forall p :: p in now ==> p in before || (p.identity == os[k - 1].identity && p.parentPid == os[k - 1].parentPid);
    }
  }

  /** An escape is reported exactly when some process has been seen outside the group. */
  lemma EscapeIsReported(root: ProcessIdentity, ownedGroup: i32, snapshots: seq<Snapshot>, k: nat)
    requires k < |snapshots|
    ensures var t := TrackerAfter(Tracker(root, ownedGroup, [], {}, 0, false), snapshots, k);
            UpdateOf(t, snapshots[k]).frame.escapeObserved <==> EverEscaped(root, ownedGroup, snapshots, k + 1) != {}
  {
    hide BelongingTo, OutsideOf, ScanAll, AggregateOf, MarksKnown, Followed;
    EscapeCounting(root, ownedGroup, snapshots, k + 1);
    var ever := EverEscaped(root, ownedGroup, snapshots, k + 1);
    assert |ever| == 0 <==> ever == {};
    hide EverEscaped;
  }

  /** The first observation of the root's own pid shows the root, exited. */
  predicate ShowsRootExited(root: ProcessIdentity, snapshot: Snapshot) {
    exists k :: 0 <= k < |snapshot.observations| && FirstAt(snapshot.observations, k)
                && snapshot.observations[k].identity == root && snapshot.observations[k].exited
  }

  lemma {:induction false} LookupFound(raw: seq<Observation>, pid: i32)
    ensures Lookup(ByPid(raw), pid).Some? <==> exists k :: 0 <= k < |raw| && raw[k].identity.pid == pid
  {
    hide Lookup, InsertFirst;
    if raw == [] {
      LookupFinds(ByPid(raw), pid);
    } else {
      var n := |raw| - 1;
      LookupFound(raw[..n], pid);
      AscendingByPid(raw[..n]);
      LookupInserted(ByPid(raw[..n]), raw[n], pid);
      assert forall k :: 0 <= k < n ==> raw[..n][k] == raw[k];
      assert (exists k :: 0 <= k < |raw| && raw[k].identity.pid == pid)
        <==> (exists k :: 0 <= k < n && raw[..n][k].identity.pid == pid) || raw[n].identity.pid == pid;
    }
  }

  lemma {:induction false} LookupFirst(raw: seq<Observation>, k: nat)
    requires k < |raw| && FirstAt(raw, k)
    ensures Lookup(ByPid(raw), raw[k].identity.pid) == Some(raw[k])
  {
    hide Lookup, InsertFirst;
    var n := |raw| - 1;
    var before, pid := raw[..n], raw[k].identity.pid;
    AscendingByPid(before);
    LookupInserted(ByPid(before), raw[n], pid);
    if k < n {
      FirstInPrefix(raw, n, k);
      LookupFirst(before, k);
    } else {
      LookupFound(before, pid);
      assert forall i :: 0 <= i < |before| ==> before[i] == raw[i];
    }
  }

  lemma {:induction false} LookupInserted(os: seq<Observation>, o: Observation, pid: i32)
    requires Ascending(os)
    ensures Lookup(InsertFirst(os, o), pid)
         == if Lookup(os, pid).Some? then Lookup(os, pid) else if o.identity.pid == pid then Some(o) else None
  {
    if os != [] && o.identity.pid > os[0].identity.pid {
      LookupInserted(os[1..], o, pid);
      assert InsertFirst(os, o)[1..] == InsertFirst(os[1..], o);
    } else if os == [] || o.identity.pid < os[0].identity.pid {
      assert InsertFirst(os, o)[1..] == os;
      LookupFinds(os, pid);
      assert Lookup(os, pid).Some? ==> pid in Pids(os);
      if os != [] && o.identity.pid == pid && Lookup(os, pid).Some? {
        HeadIsLeast(os);
        assert false;
      }
    }
  }

  lemma {:induction false} AscendingByPid(raw: seq<Observation>)
    ensures Ascending(ByPid(raw))
  {
    if raw != [] {
      AscendingByPid(raw[..|raw| - 1]);
      InsertAscends(ByPid(raw[..|raw| - 1]), raw[|raw| - 1]);
    }
  }

  lemma {:induction false} FirstOfPid(raw: seq<Observation>, k: nat) returns (i: nat)
    requires k < |raw|
    ensures i <= k && FirstAt(raw, i) && raw[i].identity.pid == raw[k].identity.pid
  {
    if FirstAt(raw, k) {
      i := k;
    } else {
      var j: nat :| j < k && raw[j].identity.pid == raw[k].identity.pid;
      i := FirstOfPid(raw, j);
    }
  }

  /** The tracker remembers exactly whether some snapshot showed the root exited. */
  lemma {:induction false} RootExitIsRemembered(root: ProcessIdentity, ownedGroup: i32, snapshots: seq<Snapshot>, k: nat)
    requires k <= |snapshots|
    ensures TrackerAfter(Tracker(root, ownedGroup, [], {}, 0, false), snapshots, k).rootExitObserved <==>
              exists i :: 0 <= i < k && ShowsRootExited(root, snapshots[i])
  {
    hide ShowsRootExited, UpdateOf;
    if k > 0 {
      var t := Tracker(root, ownedGroup, [], {}, 0, false);
      RootExitIsRemembered(root, ownedGroup, snapshots, k - 1);
      EscapeCounting(root, ownedGroup, snapshots, k - 1);
      ExitOfUpdate(TrackerAfter(t, snapshots, k - 1), snapshots[k - 1]);
    }
  }

  lemma ExitOfUpdate(t: Tracker, snapshot: Snapshot)
    ensures UpdateOf(t, snapshot).tracker.rootExitObserved <==> t.rootExitObserved || ShowsRootExited(t.root, snapshot)
    ensures UpdateOf(t, snapshot).frame.rootExitObserved == UpdateOf(t, snapshot).tracker.rootExitObserved
  {
    hide ScanAll, AggregateOf, Lookup, ByPid;
    var raw := snapshot.observations;
    LookupFound(raw, t.root.pid);
    forall k | 0 <= k < |raw| && FirstAt(raw, k) && raw[k].identity.pid == t.root.pid
      ensures Lookup(ByPid(raw), t.root.pid) == Some(raw[k])
    {
      LookupFirst(raw, k);
    }
    if Lookup(ByPid(raw), t.root.pid).Some? {
      var k :| 0 <= k < |raw| && raw[k].identity.pid == t.root.pid;
      var i := FirstOfPid(raw, k);
      assert Lookup(ByPid(raw), t.root.pid) == Some(raw[i]);
    }
  }

  /** The count never goes down and retained evidence is never dropped. */
  lemma {:induction false} EscapesAreMonotone(root: ProcessIdentity, ownedGroup: i32, snapshots: seq<Snapshot>, j: nat, k: nat)
    requires j <= k <= |snapshots|
    ensures var initial := Tracker(root, ownedGroup, [], {}, 0, false);
            var before, now := TrackerAfter(initial, snapshots, j), TrackerAfter(initial, snapshots, k);
            before.escapedCount <= now.escapedCount && before.escaped <= now.escaped
  {
    hide UpdateOf, EscapeInv, Follows, Followed, EverEscaped;
    var t := Tracker(root, ownedGroup, [], {}, 0, false);
    if j < k {
      EscapesAreMonotone(root, ownedGroup, snapshots, j, k - 1);
      EscapeCounting(root, ownedGroup, snapshots, k - 1);
      UpdateKeeps(TrackerAfter(t, snapshots, k - 1), snapshots[k - 1], EverEscaped(root, ownedGroup, snapshots, k - 1));
    }
  }
}
