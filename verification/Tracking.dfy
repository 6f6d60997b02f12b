/** Updating the tracker: which observations count, what their total is, and what is remembered of
    the ones that left the owned group. */
module Tracking {
  import opened Common
  import opened Identity

  // ---- Aggregation ----

  function KnownBytes(o: Observation): nat {
    if o.footprint.Some? then o.footprint.value else 0
  }

  function KnownSum(members: seq<Observation>): nat {
    if members == [] then 0
    else
      var n := |members| - 1;
      KnownSum(members[..n]) + KnownBytes(members[n])
  }

  lemma {:induction false} KnownSumPrefix(members: seq<Observation>, k: nat)
    requires k <= |members|
    ensures KnownSum(members[..k]) <= KnownSum(members)
  {
    if k < |members| {
      var n := |members| - 1;
      assert members[..n][..k] == members[..k];
      KnownSumPrefix(members[..n], k);
    } else {
      assert members[..k] == members;
    }
  }

  function Identities(tracked: seq<TrackedProcess>): set<ProcessIdentity> {
    set t | t in tracked :: t.identity
  }

  /** The identities one observation failure leaves unaccounted for. */
  function MissingFor(f: ObservationFailure, previous: set<ProcessIdentity>, root: ProcessIdentity): set<ProcessIdentity> {
    match f.pid
    case Some(pid) => (set id | id in previous && id.pid == pid) + (if pid == root.pid then {root} else {})
    case None => previous + {root}
  }

  function MissingIdentities(members: seq<Observation>, failures: seq<ObservationFailure>,
                             previous: set<ProcessIdentity>, root: ProcessIdentity, rootObserved: bool)
    : set<ProcessIdentity>
  {
    (set o | o in members && o.footprint.None? :: o.identity)
    + (set f, id | f in failures && id in MissingFor(f, previous, root) :: id)
    + (if rootObserved then {} else {root})
  }

  /** A total is complete only when nothing is missing and nothing failed. */
  function AggregateOf(members: seq<Observation>, failures: seq<ObservationFailure>,
                       previous: set<ProcessIdentity>, root: ProcessIdentity, rootObserved: bool): AggregateFootprint
  {
    var missing := MissingIdentities(members, failures, previous, root, rootObserved);
    if KnownSum(members) > U64_MAX then Overflow
    else if missing == {} && failures == [] then Complete(KnownSum(members))
    else Incomplete(KnownSum(members), missing)
  }

  method Aggregate(members: seq<Observation>, failures: seq<ObservationFailure>,
                   previous: set<ProcessIdentity>, root: ProcessIdentity, rootObserved: bool)
    returns (r: AggregateFootprint)
    ensures r == AggregateOf(members, failures, previous, root, rootObserved)
  {
    var known: u64 := 0;
    var missing: set<ProcessIdentity> := {};
    for i := 0 to |members|
      invariant known == KnownSum(members[..i])
      invariant missing == set o | o in members[..i] && o.footprint.None? :: o.identity
    {
      assert members[..i + 1][..i] == members[..i] && members[..i + 1] == members[..i] + [members[i]];
      KnownSumPrefix(members, i + 1);
      if members[i].footprint.None? {
        missing := missing + {members[i].identity};
      } else {
        if known + members[i].footprint.value > U64_MAX {
          return Overflow;
        }
        known := known + members[i].footprint.value;
      }
    }
    assert members[..|members|] == members;
    ghost var unread := missing;
    for i := 0 to |failures|
      invariant missing == unread + set f, id | f in failures[..i] && id in MissingFor(f, previous, root) :: id
    {
      assert failures[..i + 1] == failures[..i] + [failures[i]];
      missing := missing + MissingFor(failures[i], previous, root);
    }
    assert failures[..|failures|] == failures;
    if !rootObserved {
      missing := missing + {root};
    }
    assert missing == MissingIdentities(members, failures, previous, root, rootObserved);
    if missing == {} && failures == [] {
      return Complete(known);
    }
    return Incomplete(known, missing);
  }

  // ---- One scan over the observations ----

  datatype Scan = Scan(
    tracked: seq<TrackedProcess>, members: seq<Observation>, evidence: set<ProcessIdentity>, count: u64)

  predicate Bound(o: Observation) {
    o.identity.pid > 0 && o.identity.startAbstime != 0
  }

  /** A live member: the root, or a process of the owned group, that has not exited. */
  predicate LiveMember(t: Tracker, o: Observation) {
    Bound(o) && !o.exited && (o.identity == t.root || o.processGroupId == t.ownedGroup)
  }

  predicate Escaping(t: Tracker, o: Observation) {
    o.identity != t.root && o.processGroupId != t.ownedGroup && !o.exited
  }

  ghost predicate Relevant(t: Tracker, os: seq<Observation>, o: Observation) {
    && Bound(o)
    && (o.identity == t.root || Find(t.tracked, o.identity).Some?
        || DescendsFrom(os, o, t.root.pid) || o.processGroupId == t.ownedGroup)
  }

  function AlreadyCounted(t: Tracker, evidence: set<ProcessIdentity>, o: Observation): bool {
    var was := Find(t.tracked, o.identity);
    (was.Some? && was.value.escaped) || o.identity in evidence
  }

  ghost function ScanOne(t: Tracker, os: seq<Observation>, s: Scan, o: Observation): Scan {
    if !Relevant(t, os, o) then s
    else
      var counted := AlreadyCounted(t, s.evidence, o);
      var tracked := s.tracked + [TrackedProcess(o.identity, o.parentPid, counted || Escaping(t, o))];
      if Escaping(t, o) then
        Scan(tracked, s.members,
             if |s.evidence| < MAX_ESCAPED_EVIDENCE then s.evidence + {o.identity} else s.evidence,
             if counted then s.count else SatAdd64(s.count, 1))
      else
        Scan(tracked, if o.exited then s.members else s.members + [o], s.evidence, s.count)
  }

  ghost function ScanAll(t: Tracker, os: seq<Observation>, k: nat): Scan
    requires k <= |os|
  {
    if k == 0 then Scan([], [], t.escaped, t.escapedCount)
    else ScanOne(t, os, ScanAll(t, os, k - 1), os[k - 1])
  }

  lemma NothingScanned(t: Tracker, os: seq<Observation>)
    ensures ScanAll(t, os, 0) == Scan([], [], t.escaped, t.escapedCount)
  {
  }

  lemma ScanSkips(t: Tracker, os: seq<Observation>, i: nat)
    requires i < |os| && !Relevant(t, os, os[i])
    ensures ScanAll(t, os, i + 1) == ScanAll(t, os, i)
  {
  }

  lemma ScanFindsEscape(t: Tracker, os: seq<Observation>, i: nat)
    requires i < |os| && Relevant(t, os, os[i]) && Escaping(t, os[i])
    ensures var s, o := ScanAll(t, os, i), os[i];
            ScanAll(t, os, i + 1)
            == Scan(s.tracked + [TrackedProcess(o.identity, o.parentPid, true)], s.members,
                    if |s.evidence| < MAX_ESCAPED_EVIDENCE then s.evidence + {o.identity} else s.evidence,
                    if AlreadyCounted(t, s.evidence, o) then s.count else SatAdd64(s.count, 1))
  {
  }

  lemma ScanFindsOther(t: Tracker, os: seq<Observation>, i: nat)
    requires i < |os| && Relevant(t, os, os[i]) && !Escaping(t, os[i])
    ensures var s, o := ScanAll(t, os, i), os[i];
            ScanAll(t, os, i + 1)
            == Scan(s.tracked + [TrackedProcess(o.identity, o.parentPid, AlreadyCounted(t, s.evidence, o))],
                    if o.exited then s.members else s.members + [o], s.evidence, s.count)
  {
  }

  /** A confirmed disappearance of anything but the root is an exit, not a failure to observe. */
  predicate RelevantFailure(root: ProcessIdentity, f: ObservationFailure) {
    !f.kind.Disappeared? || f.pid.None? || f.pid == Some(root.pid)
  }

  function RelevantFailures(root: ProcessIdentity, fs: seq<ObservationFailure>): (r: seq<ObservationFailure>)
    ensures forall f :: f in r <==> f in fs && RelevantFailure(root, f)
  {
    if fs == [] then []
    else
      var n := |fs| - 1;
      RelevantFailures(root, fs[..n]) + if RelevantFailure(root, fs[n]) then [fs[n]] else []
  }

  predicate RootSeen(t: Tracker, os: seq<Observation>) {
    Lookup(os, t.root.pid).Some? && Lookup(os, t.root.pid).value.identity == t.root
  }

  predicate RootExitSeen(t: Tracker, os: seq<Observation>) {
    t.rootExitObserved || (RootSeen(t, os) && Lookup(os, t.root.pid).value.exited)
  }

  datatype Updated = Updated(tracker: Tracker, frame: Frame)

  ghost function UpdateOf(t: Tracker, snapshot: Snapshot): Updated {
    var os := ByPid(snapshot.observations);
    var s := ScanAll(t, os, |os|);
    var failures := RelevantFailures(t.root, snapshot.failures);
    var exited := RootExitSeen(t, os);
    Updated(
      t.(tracked := s.tracked, escaped := s.evidence, escapedCount := s.count, rootExitObserved := exited),
      Frame(s.members, s.count > 0,
            AggregateOf(s.members, failures, Identities(t.tracked), t.root, RootSeen(t, os) || exited),
            failures, exited))
  }

  class IdentityTracker {
    const root: ProcessIdentity
    const ownedGroup: i32
    var tracked: seq<TrackedProcess>
    var escaped: set<ProcessIdentity>
    var escapedCount: u64
    var rootExitObserved: bool

    function View(): Tracker
      reads this
    {
      Tracker(root, ownedGroup, tracked, escaped, escapedCount, rootExitObserved)
    }

    constructor (root: ProcessIdentity, ownedGroup: i32)
      ensures View() == Tracker(root, ownedGroup, [], {}, 0, false)
    {
      this.root, this.ownedGroup := root, ownedGroup;
      tracked, escaped, escapedCount, rootExitObserved := [], {}, 0, false;
    }

    static method New(root: ProcessIdentity, ownedGroup: i32) returns (r: Option<IdentityTracker>)
      ensures r.Some? <==> root.pid > 0 && root.startAbstime != 0 && ownedGroup > 0
      ensures r.Some? ==> fresh(r.value) && r.value.View() == Tracker(root, ownedGroup, [], {}, 0, false)
    {
      if root.pid <= 0 || root.startAbstime == 0 || ownedGroup <= 0 {
        return None;
      }
      var tracker := new IdentityTracker(root, ownedGroup);
      return Some(tracker);
    }

    method PrepareSnapshot(snapshot: Snapshot) returns (os: seq<Observation>, failures: seq<ObservationFailure>)
      ensures os == ByPid(snapshot.observations) && failures == RelevantFailures(root, snapshot.failures)
    {
      hide InsertFirst, RelevantFailure;
      os, failures := [], [];
      for i := 0 to |snapshot.observations|
        invariant os == ByPid(snapshot.observations[..i])
      {
        assert snapshot.observations[..i + 1][..i] == snapshot.observations[..i];
        os := InsertFirst(os, snapshot.observations[i]);
      }
      assert snapshot.observations[..|snapshot.observations|] == snapshot.observations;
      for i := 0 to |snapshot.failures|
        invariant failures == RelevantFailures(root, snapshot.failures[..i])
      {
        assert snapshot.failures[..i + 1][..i] == snapshot.failures[..i];
        if RelevantFailure(root, snapshot.failures[i]) {
          failures := failures + [snapshot.failures[i]];
        }
      }
      assert snapshot.failures[..|snapshot.failures|] == snapshot.failures;
    }

    method Update(snapshot: Snapshot) returns (frame: Frame)
      modifies this
      ensures Updated(View(), frame) == UpdateOf(old(View()), snapshot)
    {
      hide ByPid, RelevantFailures, AggregateOf, DescendsFrom, Lookup, Identities, Find, ScanAll;
      NothingScanned(View(), ByPid(snapshot.observations));
      var os, failures := PrepareSnapshot(snapshot);
      var previous := tracked;
      ghost var before := View();
      var nextTracked: seq<TrackedProcess>, members: seq<Observation> := [], [];
      for i := 0 to |os|
        invariant tracked == previous && rootExitObserved == before.rootExitObserved
        invariant Scan(nextTracked, members, escaped, escapedCount) == ScanAll(before, os, i)
      {
        var o := os[i];
        if o.identity.pid <= 0 || o.identity.startAbstime == 0 {
          ScanSkips(before, os, i);
          continue;
        }
        var wasTracked := Find(previous, o.identity);
        var descendant := DescendsFromRoot(o, os, root.pid);
        var inOwnedGroup := o.processGroupId == ownedGroup;
        var isRoot := o.identity == root;
        if !isRoot && wasTracked.None? && !descendant && !inOwnedGroup {
          ScanSkips(before, os, i);
          continue;
        }
        var escaping := !isRoot && !inOwnedGroup && !o.exited;
        var countedBefore := (wasTracked.Some? && wasTracked.value.escaped) || o.identity in escaped;
        nextTracked := nextTracked + [TrackedProcess(o.identity, o.parentPid, countedBefore || escaping)];
        if escaping {
          ScanFindsEscape(before, os, i);
          if !countedBefore {
            escapedCount := SatAdd64(escapedCount, 1);
          }
          if |escaped| < MAX_ESCAPED_EVIDENCE {
            escaped := escaped + {o.identity};
          }
        } else {
          ScanFindsOther(before, os, i);
          if !o.exited {
            members := members + [o];
          }
        }
      }
      var rootObservation := Lookup(os, root.pid);
      var rootWasObserved := rootObservation.Some? && rootObservation.value.identity == root;
      rootExitObserved := rootExitObserved || (rootWasObserved && rootObservation.value.exited);
      var aggregate := Aggregate(members, failures, Identities(previous), root, rootWasObserved || rootExitObserved);
      tracked := nextTracked;
      frame := Frame(members, escapedCount > 0, aggregate, failures, rootExitObserved);
    }
  }

  // ---- The owned members do not depend on what was tracked before ----

  function LiveMembers(t: Tracker, os: seq<Observation>, k: nat): seq<Observation>
    requires k <= |os|
  {
    if k == 0 then []
    else LiveMembers(t, os, k - 1) + if LiveMember(t, os[k - 1]) then [os[k - 1]] else []
  }

  lemma {:induction false} MembersAreTheLiveOnes(t: Tracker, os: seq<Observation>, k: nat)
    requires k <= |os|
    ensures ScanAll(t, os, k).members == LiveMembers(t, os, k)
  {
    if k > 0 {
      MembersAreTheLiveOnes(t, os, k - 1);
      assert LiveMembers(t, os, k - 1) + [] == LiveMembers(t, os, k - 1);
    }
  }

  /** The bytes of the live members of a raw snapshot, each pid counted at its first observation. */
  function LiveTotal(t: Tracker, raw: seq<Observation>): nat {
    if raw == [] then 0
    else
      var n := |raw| - 1;
      LiveTotal(t, raw[..n])
      + if LiveMember(t, raw[n]) && !exists i :: 0 <= i < n && raw[i].identity.pid == raw[n].identity.pid
        then KnownBytes(raw[n]) else 0
  }

  function LiveSum(t: Tracker, os: seq<Observation>): nat {
    if os == [] then 0
    else (if LiveMember(t, os[0]) then KnownBytes(os[0]) else 0) + LiveSum(t, os[1..])
  }

  /** Strictly increasing pids. */
  predicate Ascending(os: seq<Observation>) {
    |os| > 1 ==> os[0].identity.pid < os[1].identity.pid && Ascending(os[1..])
  }

  function Pids(os: seq<Observation>): set<i32> {
    set o | o in os :: o.identity.pid
  }

  lemma {:induction false} HeadIsLeast(os: seq<Observation>)
    requires Ascending(os) && os != []
    ensures forall pid :: pid in Pids(os) ==> os[0].identity.pid <= pid
  {
    if |os| > 1 {
      HeadIsLeast(os[1..]);
      assert Pids(os) == {os[0].identity.pid} + Pids(os[1..]) by {
        assert os == [os[0]] + os[1..];
      }
    }
  }

  lemma {:induction false} InsertAscends(os: seq<Observation>, o: Observation)
    requires Ascending(os)
    ensures Ascending(InsertFirst(os, o))
    ensures var r := InsertFirst(os, o);
            r != [] && (r[0] == o || (os != [] && r[0] == os[0]))
  {
    if os != [] && o.identity.pid > os[0].identity.pid {
      InsertAscends(os[1..], o);
      assert InsertFirst(os, o)[1..] == InsertFirst(os[1..], o);
    } else if os == [] || o.identity.pid < os[0].identity.pid {
      assert InsertFirst(os, o)[1..] == os;
    }
  }

  lemma {:induction false} InsertPids(os: seq<Observation>, o: Observation)
    ensures Pids(InsertFirst(os, o)) == Pids(os) + {o.identity.pid}
  {
    if os != [] && o.identity.pid > os[0].identity.pid {
      InsertPids(os[1..], o);
      PidsOfCons(os[0], InsertFirst(os[1..], o));
      PidsOfCons(os[0], os[1..]);
      assert os == [os[0]] + os[1..];
    } else if os == [] || o.identity.pid < os[0].identity.pid {
      PidsOfCons(o, os);
    } else {
      assert os[0] in os;
    }
  }

  lemma PidsOfCons(o: Observation, os: seq<Observation>)
    ensures Pids([o] + os) == {o.identity.pid} + Pids(os)
  {
    assert forall x :: x in [o] + os <==> x == o || x in os;
  }

  lemma {:induction false} InsertSum(t: Tracker, os: seq<Observation>, o: Observation)
    requires Ascending(os)
    ensures LiveSum(t, InsertFirst(os, o))
         == LiveSum(t, os) + if LiveMember(t, o) && o.identity.pid !in Pids(os) then KnownBytes(o) else 0
  {
    hide LiveMember;
    if os == [] || o.identity.pid < os[0].identity.pid {
      assert InsertFirst(os, o)[1..] == os;
      if os != [] {
        HeadIsLeast(os);
      }
    } else if o.identity.pid == os[0].identity.pid {
      assert os[0] in os;
    } else {
      InsertSum(t, os[1..], o);
      assert InsertFirst(os, o)[1..] == InsertFirst(os[1..], o);
      assert os == [os[0]] + os[1..];
      PidsOfCons(os[0], os[1..]);
    }
  }

  lemma {:induction false} ByPidSum(t: Tracker, raw: seq<Observation>)
    ensures Ascending(ByPid(raw)) && Pids(ByPid(raw)) == Pids(raw)
    ensures LiveSum(t, ByPid(raw)) == LiveTotal(t, raw)
  {
    hide LiveMember;
    if raw != [] {
      var n := |raw| - 1;
      var before := raw[..n];
      ByPidSum(t, before);
      InsertAscends(ByPid(before), raw[n]);
      InsertPids(ByPid(before), raw[n]);
      InsertSum(t, ByPid(before), raw[n]);
      assert raw == before + [raw[n]];
      assert Pids(raw) == Pids(before) + {raw[n].identity.pid};
      assert forall i :: 0 <= i < n ==> raw[i] == before[i];
      assert raw[n].identity.pid in Pids(before) <==>
               exists i :: 0 <= i < n && raw[i].identity.pid == raw[n].identity.pid;
    }
  }

  lemma {:induction false} LiveMembersOfTail(t: Tracker, os: seq<Observation>, k: nat)
    requires 0 < k <= |os|
    ensures LiveMembers(t, os, k) == (if LiveMember(t, os[0]) then [os[0]] else []) + LiveMembers(t, os[1..], k - 1)
  {
    if k > 1 {
      LiveMembersOfTail(t, os, k - 1);
      assert os[1..][k - 2] == os[k - 1];
    }
  }

  lemma {:induction false} KnownSumConcat(a: seq<Observation>, b: seq<Observation>)
    ensures KnownSum(a + b) == KnownSum(a) + KnownSum(b)
  {
    if b == [] {
      assert a + b == a;
    } else {
      var n := |b| - 1;
      assert (a + b)[..|a + b| - 1] == a + b[..n];
      KnownSumConcat(a, b[..n]);
    }
  }

  lemma KnownSumOfOne(o: Observation)
    ensures KnownSum([o]) == KnownBytes(o) && KnownSum([]) == 0
  {
    assert [o][..0] == [];
  }

  lemma {:induction false} LiveMembersSum(t: Tracker, os: seq<Observation>)
    ensures KnownSum(LiveMembers(t, os, |os|)) == LiveSum(t, os)
  {
    hide LiveMember, LiveMembers, KnownSum;
    if os == [] {
      assert LiveMembers(t, os, |os|) == [] by { NoObservations(t); }
      assert KnownSum([]) == 0 by { NoObservations(t); }
    } else {
      var head := if LiveMember(t, os[0]) then [os[0]] else [];
      LiveMembersOfTail(t, os, |os|);
      KnownSumConcat(head, LiveMembers(t, os[1..], |os| - 1));
      LiveMembersSum(t, os[1..]);
      KnownSumOfOne(os[0]);
    }
  }

  lemma NoObservations(t: Tracker)
    ensures LiveMembers(t, [], 0) == [] && KnownSum([]) == 0
  {
  }

  lemma {:induction false} LiveMembersContain(t: Tracker, os: seq<Observation>, k: nat, i: nat)
    requires i < k <= |os| && LiveMember(t, os[i])
    ensures os[i] in LiveMembers(t, os, k)
  {
    if i < k - 1 {
      LiveMembersContain(t, os, k - 1, i);
    }
  }

  /** A complete total is exact: it is the sum over every live member of the snapshot, every one of
      them was measured, nothing failed to be observed, and the root is accounted for. What was
      tracked before plays no part in it. */
  lemma CompleteIsExact(t: Tracker, snapshot: Snapshot)
    requires UpdateOf(t, snapshot).frame.aggregate.Complete?
    ensures var u := UpdateOf(t, snapshot);
            var os := ByPid(snapshot.observations);
            && u.frame.aggregate.totalBytes == LiveTotal(t, snapshot.observations) <= U64_MAX
            && (forall i :: 0 <= i < |os| && LiveMember(t, os[i]) ==> os[i].footprint.Some?)
            && (forall f :: f in snapshot.failures ==> !RelevantFailure(t.root, f))
            && u.frame.failures == []
            && (RootSeen(t, os) || RootExitSeen(t, os))
  {
    var os := ByPid(snapshot.observations);
    var members := ScanAll(t, os, |os|).members;
    MembersAreTheLiveOnes(t, os, |os|);
    LiveMembersSum(t, os);
    ByPidSum(t, snapshot.observations);
    var missing := MissingIdentities(members, UpdateOf(t, snapshot).frame.failures, Identities(t.tracked), t.root,
                                     RootSeen(t, os) || RootExitSeen(t, os));
    assert missing == {} && forall o :: o in members && o.footprint.None? ==> o.identity in missing;
    forall i | 0 <= i < |os| && LiveMember(t, os[i])
      ensures os[i].footprint.Some?
    {
      LiveMembersContain(t, os, |os|, i);
    }
    assert !(RootSeen(t, os) || RootExitSeen(t, os)) ==> t.root in missing;
  }

  /** Everything a complete total needs. */
  ghost predicate NothingMissing(t: Tracker, snapshot: Snapshot) {
    var os := ByPid(snapshot.observations);
    && (forall i :: 0 <= i < |os| && LiveMember(t, os[i]) ==> os[i].footprint.Some?)
    && (forall f :: f in snapshot.failures ==> !RelevantFailure(t.root, f))
    && (RootSeen(t, os) || RootExitSeen(t, os))
  }

  lemma {:induction false} MembersAreLive(t: Tracker, os: seq<Observation>, k: nat)
    requires k <= |os|
    ensures forall o :: o in LiveMembers(t, os, k) ==> o in os && LiveMember(t, o)
  {
    hide LiveMember;
    if k > 0 {
      MembersAreLive(t, os, k - 1);
    }
  }

  lemma {:induction false} NoneRelevant(root: ProcessIdentity, fs: seq<ObservationFailure>)
    requires forall f :: f in fs ==> !RelevantFailure(root, f)
    ensures RelevantFailures(root, fs) == []
  {
    hide RelevantFailure;
    if fs != [] {
      NoneRelevant(root, fs[..|fs| - 1]);
    }
  }

  /** And nothing more: when nothing is missing the total is complete, unless it overflows. */
  lemma NothingMissingIsComplete(t: Tracker, snapshot: Snapshot)
    requires NothingMissing(t, snapshot)
    ensures var frame := UpdateOf(t, snapshot).frame;
            && frame.failures == []
            && frame.aggregate == (if LiveTotal(t, snapshot.observations) > U64_MAX then Overflow
                                   else Complete(LiveTotal(t, snapshot.observations)))
  {
    var os := ByPid(snapshot.observations);
    MembersAreTheLiveOnes(t, os, |os|);
    MembersAreLive(t, os, |os|);
    MembersSum(t, snapshot);
    var members := ScanAll(t, os, |os|).members;
    hide ScanAll, LiveMembers, LiveTotal, ByPid, LiveMember;
    var failures := RelevantFailures(t.root, snapshot.failures);
    NoneRelevant(t.root, snapshot.failures);
    assert forall o :: o in members ==> o.footprint.Some?;
    assert MissingIdentities(members, [], Identities(t.tracked), t.root, true) == {};
  }

  // ---- What the documented rule leaves out ----

  /** No earlier observation has the pid. */
  predicate FirstAt(raw: seq<Observation>, k: nat)
    requires k < |raw|
  {
    forall i :: 0 <= i < k ==> raw[i].identity.pid != raw[k].identity.pid
  }

  /** The live root, observed in another group. */
  predicate RootElsewhere(t: Tracker, o: Observation) {
    Bound(o) && !o.exited && o.identity == t.root && o.processGroupId != t.ownedGroup
  }

  /** The bytes of the live observations with the owned group only. */
  function GroupTotal(t: Tracker, raw: seq<Observation>): nat {
    if raw == [] then 0
    else
      var n := |raw| - 1;
      GroupTotal(t, raw[..n])
      + if LiveMember(t, raw[n]) && raw[n].processGroupId == t.ownedGroup && FirstAt(raw, n) then KnownBytes(raw[n]) else 0
  }

  /** The bytes counted besides. */
  function ElsewhereBytes(t: Tracker, raw: seq<Observation>): nat {
    if raw == [] then 0
    else
      var n := |raw| - 1;
      ElsewhereBytes(t, raw[..n]) + if RootElsewhere(t, raw[n]) && FirstAt(raw, n) then KnownBytes(raw[n]) else 0
  }

  /** Observation `k` is the live root with some bytes in another group, and the first of its pid. */
  predicate CountsElsewhere(t: Tracker, raw: seq<Observation>, k: nat)
    requires k < |raw|
  {
    FirstAt(raw, k) && RootElsewhere(t, raw[k]) && KnownBytes(raw[k]) > 0
  }

  lemma FirstInPrefix(raw: seq<Observation>, n: nat, k: nat)
    requires k < n <= |raw|
    ensures FirstAt(raw[..n], k) <==> FirstAt(raw, k)
  {
    assert forall i :: 0 <= i <= k ==> raw[..n][i] == raw[i];
  }

  lemma {:induction false} TotalSplits(t: Tracker, raw: seq<Observation>)
    ensures LiveTotal(t, raw) == GroupTotal(t, raw) + ElsewhereBytes(t, raw)
  {
    if raw != [] {
      TotalSplits(t, raw[..|raw| - 1]);
    }
  }

  lemma {:induction false} SomeCountElsewhere(t: Tracker, raw: seq<Observation>)
    ensures ElsewhereBytes(t, raw) > 0 <==> exists k :: 0 <= k < |raw| && CountsElsewhere(t, raw, k)
  {
    if raw != [] {
      var n := |raw| - 1;
      var before := raw[..n];
      SomeCountElsewhere(t, before);
      assert ElsewhereBytes(t, raw) > 0 <==> ElsewhereBytes(t, before) > 0 || CountsElsewhere(t, raw, n);
      forall k | 0 <= k < n ensures CountsElsewhere(t, before, k) <==> CountsElsewhere(t, raw, k) {
        FirstInPrefix(raw, n, k);
      }
      hide CountsElsewhere, ElsewhereBytes;
      if k :| 0 <= k < |before| && CountsElsewhere(t, before, k) {
        assert CountsElsewhere(t, raw, k);
      }
      if k :| 0 <= k < |raw| && CountsElsewhere(t, raw, k) && k < n {
        assert CountsElsewhere(t, before, k);
      }
    }
  }

  /** The bytes an aggregate names, the exact total or the known part of it. */
  function NamedBytes(a: AggregateFootprint): Option<nat> {
    match a
    case Complete(total) => Some(total)
    case Incomplete(known, _) => Some(known)
    case Overflow => None
  }

  lemma MembersSum(t: Tracker, snapshot: Snapshot)
    ensures var named := NamedBytes(UpdateOf(t, snapshot).frame.aggregate);
            named.Some? ==> named.value == LiveTotal(t, snapshot.observations)
    ensures KnownSum(UpdateOf(t, snapshot).frame.ownedMembers) == LiveTotal(t, snapshot.observations)
  {
    var os := ByPid(snapshot.observations);
    MembersAreTheLiveOnes(t, os, |os|);
    LiveMembersSum(t, os);
    ByPidSum(t, snapshot.observations);
  }

  /** The total of any snapshot, complete or not, is the sum over the owned group alone if and only if the
      first observation of the root's pid is not the live root with some bytes in another group. */
  lemma TotalIsTheGroupsUnlessRootLeft(t: Tracker, snapshot: Snapshot)
    ensures var named := NamedBytes(UpdateOf(t, snapshot).frame.aggregate);
            named.Some? ==>
            (named.value == GroupTotal(t, snapshot.observations) <==>
              !exists k :: 0 <= k < |snapshot.observations| && CountsElsewhere(t, snapshot.observations, k))
  {
    hide UpdateOf, CountsElsewhere, KnownSum, LiveTotal, GroupTotal, ElsewhereBytes;
    MembersSum(t, snapshot);
    TotalSplits(t, snapshot.observations);
    SomeCountElsewhere(t, snapshot.observations);
  }

  /** A snapshot that holds only the live, measured root. */
  lemma LoneRootIsCounted(t: Tracker, o: Observation)
    requires Bound(o) && o.identity == t.root && !o.exited && o.footprint.Some?
    ensures ByPid([o]) == [o] && GroupTotal(t, [o]) == if o.processGroupId == t.ownedGroup then KnownBytes(o) else 0
    ensures var frame := UpdateOf(t, Snapshot([o], [])).frame;
            frame.aggregate == Complete(KnownBytes(o)) && frame.failures == []
  {
    assert [o][..0] == [];
    assert ByPid([]) == [];
    assert ByPid([o]) == [o];
    MembersAreTheLiveOnes(t, [o], 1);
    assert LiveMembers(t, [o], 0) == [];
    assert KnownSum([]) == 0;
    var members := ScanAll(t, [o], 1).members;
    assert members == [o];
    hide ScanAll, LiveMembers, LiveMember;
    assert MissingIdentities([o], [], Identities(t.tracked), t.root, true) == {};
  }

  /** A root that moved to group 9 is counted though the owned group is 7. */
  lemma RootElsewhereIsCounted()
    ensures var root := ProcessIdentity(7, 1);
            var t := Tracker(root, 7, [], {}, 0, false);
            var snapshot := Snapshot([Observation(root, 1, 9, Some(100), false)], []);
            && UpdateOf(t, snapshot).frame.aggregate == Complete(100)
            && GroupTotal(t, snapshot.observations) == 0
  {
    hide UpdateOf, GroupTotal;
    var root := ProcessIdentity(7, 1);
    LoneRootIsCounted(Tracker(root, 7, [], {}, 0, false), Observation(root, 1, 9, Some(100), false));
  }
}
