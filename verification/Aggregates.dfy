/** What the aggregate of a frame says about its snapshot, told from the raw observations and failures: the exact
    known bytes, and exactly whom they leave out. */
module Aggregates {
  import opened Common
  import opened Identity
  import opened Tracking

  // ---- The snapshot in its own terms ----

  /** A live process that counts: the root by identity, or one of the owned group. */
  predicate Counts(t: Tracker, o: Observation) {
    && o.identity.pid > 0 && o.identity.startAbstime != 0 && !o.exited
    && (o.identity == t.root || o.processGroupId == t.ownedGroup)
  }

  function Measured(o: Observation): nat {
    match o.footprint
    case None => 0
    case Some(bytes) => bytes
  }

  /** The measured bytes of every process that counts, by the first observation of its pid. */
  function MeasuredTotal(t: Tracker, raw: seq<Observation>): nat {
    if raw == [] then 0
    else
      var n := |raw| - 1;
      MeasuredTotal(t, raw[..n]) + if FirstAt(raw, n) && Counts(t, raw[n]) then Measured(raw[n]) else 0
  }

  /** Anything but the confirmed disappearance of another process than the root. */
  predicate Lost(t: Tracker, f: ObservationFailure) {
    !(f.kind.Disappeared? && f.pid.Some? && f.pid.value != t.root.pid)
  }

  predicate RootAccounted(t: Tracker, raw: seq<Observation>) {
    t.rootExitObserved || exists k :: 0 <= k < |raw| && FirstAt(raw, k) && raw[k].identity == t.root
  }

  /** A failure names the identity: by its pid, if it was followed or is the root, or, naming none, all of them. */
  predicate Names(t: Tracker, f: ObservationFailure, id: ProcessIdentity) {
    (f.pid.None? || f.pid.value == id.pid) && (id == t.root || exists p :: p in t.tracked && p.identity == id)
  }

  /** The frame cannot vouch for this identity. */
  ghost predicate Unaccounted(t: Tracker, snapshot: Snapshot, id: ProcessIdentity) {
    var raw := snapshot.observations;
    || (exists k :: 0 <= k < |raw| && FirstAt(raw, k) && Counts(t, raw[k]) && raw[k].footprint.None? && raw[k].identity == id)
    || (exists f :: f in snapshot.failures && Lost(t, f) && Names(t, f, id))
    || (id == t.root && !RootAccounted(t, raw))
  }

  // ---- What the tracker works on ----

  lemma {:induction false} InsertMeans(os: seq<Observation>, x: Observation, o: Observation)
    requires Ascending(os)
    ensures o in InsertFirst(os, x) <==> o in os || (o == x && x.identity.pid !in Pids(os))
  {
    if os == [] {
    } else if x.identity.pid < os[0].identity.pid {
      HeadIsLeast(os);
      assert forall i :: 0 <= i < |os| ==> os[i] == ([x] + os)[i + 1];
    } else if x.identity.pid > os[0].identity.pid {
      InsertMeans(os[1..], x, o);
      PidsOfCons(os[0], os[1..]);
      assert os == [os[0]] + os[1..];
      assert o in os <==> o == os[0] || o in os[1..];
    }
  }

  lemma {:induction false} ByPidMeans(raw: seq<Observation>, o: Observation)
    ensures o in ByPid(raw) <==> exists k :: 0 <= k < |raw| && FirstAt(raw, k) && raw[k] == o
    ensures Ascending(ByPid(raw))
    ensures forall p :: p in Pids(ByPid(raw)) <==> exists k :: 0 <= k < |raw| && raw[k].identity.pid == p
  {
    hide InsertFirst, Pids, FirstAt;
    if raw == [] {
      NoPids();
    } else {
      var n := |raw| - 1;
      var before := raw[..n];
      ByPidMeans(before, o);
      InsertMeans(ByPid(before), raw[n], o);
      InsertAscends(ByPid(before), raw[n]);
      InsertPids(ByPid(before), raw[n]);
      assert forall k :: 0 <= k < n ==> before[k] == raw[k];
      forall k | 0 <= k < n ensures FirstAt(before, k) <==> FirstAt(raw, k) {
        FirstInPrefix(raw, n, k);
      }
      LastIsFirst(before, raw[n]);
      assert raw == before + [raw[n]];
    }
  }

  lemma NoPids()
    ensures Pids([]) == {}
  {
  }

  lemma LastIsFirst(before: seq<Observation>, o: Observation)
    ensures FirstAt(before + [o], |before|) <==> !exists k :: 0 <= k < |before| && before[k].identity.pid == o.identity.pid
  {
    var raw := before + [o];
    assert forall k :: 0 <= k < |before| ==> before[k] == raw[k];
    if !FirstAt(raw, |before|) {
      var i :| 0 <= i < |before| && raw[i].identity.pid == o.identity.pid;
      assert before[i].identity.pid == o.identity.pid;
    }
  }

  lemma {:induction false} TotalIsMeasured(t: Tracker, raw: seq<Observation>)
    ensures LiveTotal(t, raw) == MeasuredTotal(t, raw)
  {
    if raw != [] {
      TotalIsMeasured(t, raw[..|raw| - 1]);
      assert FirstAt(raw, |raw| - 1) <==> !exists i :: 0 <= i < |raw| - 1 && raw[i].identity.pid == raw[|raw| - 1].identity.pid;
    }
  }

  lemma RootIsAccounted(t: Tracker, raw: seq<Observation>)
    ensures RootSeen(t, ByPid(raw)) || RootExitSeen(t, ByPid(raw)) <==> RootAccounted(t, raw)
  {
    hide FirstAt, InsertFirst;
    var os := ByPid(raw);
    LookupFinds(os, t.root.pid);
    ByPidMeans(raw, if Lookup(os, t.root.pid).Some? then Lookup(os, t.root.pid).value else Absent(t));
    if k :| 0 <= k < |raw| && FirstAt(raw, k) && raw[k].identity == t.root {
      ByPidMeans(raw, raw[k]);
      OnePerPid(os, raw[k]);
    }
  }

  function Absent(t: Tracker): Observation {
    Observation(t.root, 0, 0, None, false)
  }

  lemma {:induction false} OnePerPid(os: seq<Observation>, o: Observation)
    requires Ascending(os) && o in os
    ensures Lookup(os, o.identity.pid) == Some(o)
  {
    if os[0] != o {
      assert o in os[1..];
      OnePerPid(os[1..], o);
      HeadIsLeast(os[1..]);
      assert o.identity.pid in Pids(os[1..]);
      assert os[0].identity.pid < os[1].identity.pid == os[1..][0].identity.pid;
    }
  }

  /** The unmeasured members, the losses and the missing root are exactly the unaccounted identities. */
  lemma MissingMeans(t: Tracker, snapshot: Snapshot, id: ProcessIdentity)
    ensures var os := ByPid(snapshot.observations);
            id in MissingIdentities(LiveMembers(t, os, |os|), RelevantFailures(t.root, snapshot.failures),
                                    Identities(t.tracked),
                                    t.root, RootSeen(t, os) || RootExitSeen(t, os))
            <==> Unaccounted(t, snapshot, id)
  {
    var raw := snapshot.observations;
    var os := ByPid(raw);
    var members, failures := LiveMembers(t, os, |os|), RelevantFailures(t.root, snapshot.failures);
    RootIsAccounted(t, raw);
    UnmeasuredMeans(t, raw, id);
    hide RootSeen, RootExitSeen, RootAccounted, ByPid, LiveMembers, FirstAt, Counts;
    assert (exists f :: f in failures && id in MissingFor(f, Identities(t.tracked), t.root))
      <==> (exists f :: f in snapshot.failures && Lost(t, f) && Names(t, f, id)) by {
      forall f ensures f in failures && id in MissingFor(f, Identities(t.tracked), t.root)
                       <==> f in snapshot.failures && Lost(t, f) && Names(t, f, id) {
        NamedMeans(t, f, id);
      }
    }
  }

  lemma NamedMeans(t: Tracker, f: ObservationFailure, id: ProcessIdentity)
    ensures RelevantFailure(t.root, f) <==> Lost(t, f)
    ensures id in MissingFor(f, Identities(t.tracked), t.root) <==> Names(t, f, id)
  {
    assert id in Identities(t.tracked) <==> exists p :: p in t.tracked && p.identity == id;
  }

  lemma UnmeasuredMeans(t: Tracker, raw: seq<Observation>, id: ProcessIdentity)
    ensures var os := ByPid(raw);
            (exists o :: o in LiveMembers(t, os, |os|) && o.footprint.None? && o.identity == id)
            <==> exists k :: 0 <= k < |raw| && FirstAt(raw, k) && Counts(t, raw[k]) && raw[k].footprint.None? && raw[k].identity == id
  {
    var os := ByPid(raw);
    MembersAreLive(t, os, |os|);
    hide FirstAt, ByPid;
    if o :| o in LiveMembers(t, os, |os|) && o.footprint.None? && o.identity == id {
      ByPidMeans(raw, o);
    }
    if k :| 0 <= k < |raw| && FirstAt(raw, k) && Counts(t, raw[k]) && raw[k].footprint.None? && raw[k].identity == id {
      ByPidMeans(raw, raw[k]);
      var i :| 0 <= i < |os| && os[i] == raw[k];
      LiveMembersContain(t, os, |os|, i);
    }
  }

  /** A frame's aggregate, exactly. The known bytes are the measured total of the snapshot; the missing identities are
      those nothing vouches for; it is complete exactly when no failure was a loss and nobody is missing, and
      overflows exactly when the total does not fit. */
  lemma AggregateTells(t: Tracker, snapshot: Snapshot)
    ensures var frame := UpdateOf(t, snapshot).frame;
            var total := MeasuredTotal(t, snapshot.observations);
            var losses := exists f :: f in snapshot.failures && Lost(t, f);
            && (forall f :: f in frame.failures <==> f in snapshot.failures && Lost(t, f))
            && match frame.aggregate
               case Overflow => total > U64_MAX
               case Complete(bytes) =>
                 bytes == total && !losses && forall id: ProcessIdentity :: !Unaccounted(t, snapshot, id)
               case Incomplete(bytes, missing) =>
                 && bytes == total && (forall id: ProcessIdentity :: id in missing <==> Unaccounted(t, snapshot, id))
                 && (losses || missing != {})
  {
    var os := ByPid(snapshot.observations);
    MembersAreTheLiveOnes(t, os, |os|);
    MembersSum(t, snapshot);
    TotalIsMeasured(t, snapshot.observations);
    forall id: ProcessIdentity
      ensures id in MissingIdentities(LiveMembers(t, os, |os|), RelevantFailures(t.root, snapshot.failures), Identities(t.tracked),
                                      t.root, RootSeen(t, os) || RootExitSeen(t, os))
              <==> Unaccounted(t, snapshot, id)
    {
      MissingMeans(t, snapshot, id);
    }
    forall f ensures RelevantFailure(t.root, f) <==> Lost(t, f) {
      NamedMeans(t, f, t.root);
    }
    var failures := RelevantFailures(t.root, snapshot.failures);
    assert failures != [] ==> failures[0] in snapshot.failures && Lost(t, failures[0]);
    hide ByPid, ScanAll, LiveMembers, MissingIdentities, Unaccounted, Lost, RelevantFailure, MeasuredTotal,
         LiveTotal, KnownSum,
         RootSeen, RootExitSeen;
  }

  // ---- Descent ----

  /** Some observation says that this is the process' parent. */
  predicate IsParent(os: seq<Observation>, pid: i32, parent: i32) {
    exists k :: 0 <= k < |os| && os[k].identity.pid == pid && os[k].parentPid == parent
  }

  /** A chain of observed parents, all of positive pids, from one process up to another. */
  ghost predicate Chain(os: seq<Observation>, start: i32, chain: seq<i32>, end: i32) {
    && chain != [] && chain[0] == start && chain[|chain| - 1] == end
    && (forall i :: 0 <= i < |chain| ==> chain[i] > 0)
    && forall i, j :: 0 <= i < j < |chain| && j == i + 1 ==> IsParent(os, chain[i], chain[j])
  }

  lemma {:induction false} AncestorsChain(os: seq<Observation>, start: i32, n: nat) returns (chain: seq<i32>)
    requires Ancestor(os, start, n).Some?
    ensures Chain(os, start, chain, Ancestor(os, start, n).value)
  {
    if n == 0 {
      chain := [start];
    } else {
      var below := AncestorsChain(os, start, n - 1);
      var child := Ancestor(os, start, n - 1).value;
      LookupFinds(os, child);
      chain := below + [Ancestor(os, start, n).value];
      var o := Lookup(os, child).value;
      var k :| 0 <= k < |os| && os[k] == o;
      assert IsParent(os, child, o.parentPid);
    }
  }

  lemma {:induction false} ChainsAscend(os: seq<Observation>, start: i32, chain: seq<i32>, end: i32, i: nat)
    requires Ascending(os) && Chain(os, start, chain, end) && i < |chain|
    ensures Ancestor(os, start, i) == Some(chain[i])
  {
    if i > 0 {
      var below: nat := i - 1;
      ChainsAscend(os, start, chain, end, below);
      assert IsParent(os, chain[below], chain[i]);
      var k :| 0 <= k < |os| && os[k].identity.pid == chain[below] && os[k].parentPid == chain[i];
      OnePerPid(os, os[k]);
    }
  }

  /** A process descends from the root exactly when a chain of observed parents leads from its own parent up to the
      root's pid. */
  lemma DescentIsAChain(os: seq<Observation>, o: Observation, rootPid: i32)
    requires Ascending(os)
    ensures DescendsFrom(os, o, rootPid) <==> exists chain: seq<i32> :: Chain(os, o.parentPid, chain, rootPid)
  {
    if DescendsFrom(os, o, rootPid) {
      var n: nat :| Ancestor(os, o.parentPid, n) == Some(rootPid);
      var chain := AncestorsChain(os, o.parentPid, n);
    }
    if chain: seq<i32> :| Chain(os, o.parentPid, chain, rootPid) {
      ChainsAscend(os, o.parentPid, chain, rootPid, |chain| - 1);
    }
  }
}
