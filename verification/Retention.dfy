/**
 * Taking snapshots on the pods of a cluster, and clearing those that lie outside the
 * retention period.
 */
module Retention {
  import opened Wrappers
  import opened Sequences
  import opened Text
  import opened Durations
  import opened SnapshotListing

  // ---------- Which snapshots have expired

  predicate IsExpired(snapshot: Snapshot, cutoff: int) {
    Atoi(snapshot.name).Some? && Atoi(snapshot.name).value < cutoff
  }

  /** Clearing acts on a name within a keyspace, for all its column families. */
  predicate SameTarget(a: Snapshot, b: Snapshot) {
    a.name == b.name && a.keyspace == b.keyspace
  }

  predicate IsSelected(snapshot: Snapshot, selected: seq<Snapshot>) {
    exists i :: 0 <= i < |selected| && SameTarget(selected[i], snapshot)
  }

  function Selected(snapshots: seq<Snapshot>, cutoff: int): seq<Snapshot> {
    if snapshots == [] then []
    else
      var earlier, last := Selected(snapshots[..|snapshots| - 1], cutoff), snapshots[|snapshots| - 1];
      if IsExpired(last, cutoff) && !IsSelected(last, earlier) then earlier + [last] else earlier
  }

  method OutsideRetentionPeriod(snapshots: seq<Snapshot>, cutoff: int) returns (selected: seq<Snapshot>)
    ensures selected == Selected(snapshots, cutoff)
  {
    selected := [];
    for i := 0 to |snapshots|
      invariant selected == Selected(snapshots[..i], cutoff)
    {
      var snapshot := snapshots[i];
      assert snapshots[..i + 1][..i] == snapshots[..i];
      var time := Atoi(snapshot.name);
      if time.Some? && time.value < cutoff {
        var found := FindSelected(snapshot, selected);
        if !found {
          selected := selected + [snapshot];
        }
      }
    }
    assert snapshots[..|snapshots|] == snapshots;
  }

  /** The filter's inner loop. */
  method FindSelected(snapshot: Snapshot, selected: seq<Snapshot>) returns (found: bool)
    ensures found <==> IsSelected(snapshot, selected)
  {
    found := false;
    for k := 0 to |selected|
      invariant found <==> IsSelected(snapshot, selected[..k])
    {
      assert selected[..k + 1] == selected[..k] + [selected[k]];
      SelectedOneMore(snapshot, selected[..k], selected[k]);
      found := found || (selected[k].name == snapshot.name && selected[k].keyspace == snapshot.keyspace);
    }
    assert selected[..|selected|] == selected;
  }

  lemma SelectedOneMore(snapshot: Snapshot, selected: seq<Snapshot>, last: Snapshot)
    ensures IsSelected(snapshot, selected + [last]) <==> IsSelected(snapshot, selected) || SameTarget(last, snapshot)
  {
    var more := selected + [last];
    if IsSelected(snapshot, selected) {
      var i :| 0 <= i < |selected| && SameTarget(selected[i], snapshot);
      assert SameTarget(more[i], snapshot);
    }
    if SameTarget(last, snapshot) {
      assert SameTarget(more[|selected|], snapshot);
    }
    if IsSelected(snapshot, more) {
      var i :| 0 <= i < |more| && SameTarget(more[i], snapshot);
      assert i < |selected| ==> SameTarget(selected[i], snapshot);
    }
  }

  /** Every expired snapshot is selected, once for each name and keyspace, and nothing else is. */
  lemma {:induction false} SelectsExpiredOnce(snapshots: seq<Snapshot>, cutoff: int)
    ensures var selected := Selected(snapshots, cutoff);
            && (forall s :: s in snapshots && IsExpired(s, cutoff) ==> IsSelected(s, selected))
            && (forall s :: s in selected ==> s in snapshots && IsExpired(s, cutoff))
            && (forall i, j :: 0 <= i < j < |selected| ==> !SameTarget(selected[i], selected[j]))
  {
    if snapshots != [] {
      var init, last := snapshots[..|snapshots| - 1], snapshots[|snapshots| - 1];
      SelectsExpiredOnce(init, cutoff);
      assert snapshots == init + [last];
      forall s | s in snapshots && IsExpired(s, cutoff)
        ensures IsSelected(s, Selected(snapshots, cutoff))
      {
        SelectedOneMore(s, Selected(init, cutoff), last);
      }
    }
  }

  // ---------- The pods

  /** How a command on a pod ends: as wished, or with an error that may hide that it took effect. */
  datatype Reply = Done | FailedBefore | FailedAfterwards

  /** What a pod answers: to listing, to its n-th deletion, and to taking a snapshot. */
  datatype Replies = Replies(list: bool, delete: nat -> Reply, create: Reply)

  /** A pod, and the table of its snapshots. */
  datatype PodState = PodState(name: string, rows: seq<Row>)

  predicate TakesEffect(reply: Reply) {
    reply != FailedBefore
  }

  predicate Targets(row: Row, snapshot: Snapshot) {
    row.Listed? && SameTarget(row.snapshot, snapshot)
  }

  /** `nodetool clearsnapshot -t name -- keyspace`. */
  function Clear(rows: seq<Row>, snapshot: Snapshot): seq<Row> {
    if rows == [] then []
    else (if Targets(rows[0], snapshot) then [] else [rows[0]]) + Clear(rows[1..], snapshot)
  }

  /** The rows left after the deletions from the `n`-th on, and how many of these failed. */
  datatype Cleaned = Cleaned(rows: seq<Row>, failures: nat)

  function DeleteEach(rows: seq<Row>, snapshots: seq<Snapshot>, delete: nat -> Reply, n: nat): Cleaned
    decreases |snapshots|
  {
    if snapshots == [] then Cleaned(rows, 0)
    else
      var reply := delete(n);
      var rest := DeleteEach(if TakesEffect(reply) then Clear(rows, snapshots[0]) else rows, snapshots[1..], delete, n + 1);
      rest.(failures := rest.failures + if reply.Done? then 0 else 1)
  }

  function CleanPod(rows: seq<Row>, cutoff: int, replies: Replies): Cleaned {
    if !replies.list then Cleaned(rows, 1)
    else DeleteEach(rows, Selected(ParseLines(SplitLines(Output(rows))), cutoff), replies.delete, 0)
  }

  function Repeated(name: string, n: nat): (names: seq<string>)
    ensures |names| == n
  {
    if n == 0 then [] else Repeated(name, n - 1) + [name]
  }

  function CleanedPod(pod: PodState, cutoff: int, replies: Replies): PodState {
    pod.(rows := CleanPod(pod.rows, cutoff, replies).rows)
  }

  function FailuresOf(pod: PodState, cutoff: int, replies: Replies): nat {
    CleanPod(pod.rows, cutoff, replies).failures
  }

  /** The failures of the first `n` pods: a pod is named once for each of its calls that failed. */
  function FailedNames(pods: seq<PodState>, cutoff: int, replies: nat -> Replies, n: nat): seq<string>
    requires n <= |pods|
  {
    if n == 0 then []
    else FailedNames(pods, cutoff, replies, n - 1) + Repeated(pods[n - 1].name, FailuresOf(pods[n - 1], cutoff, replies(n - 1)))
  }

  function FailedCreations(pods: seq<PodState>, replies: nat -> Replies, n: nat): seq<string>
    requires n <= |pods|
  {
    if n == 0 then []
    else FailedCreations(pods, replies, n - 1) + if replies(n - 1).create.Done? then [] else [pods[n - 1].name]
  }

  function WithSnapshot(pod: PodState, time: int, keyspaces: seq<string>, tables: seq<(string, string)>, reply: Reply): PodState {
    if TakesEffect(reply) then pod.(rows := pod.rows + NewRows(FormatInt(time), tables, keyspaces)) else pod
  }

  function ErrorFor(failedPods: seq<string>): Option<Error> {
    if failedPods == [] then None else Some(Failed(failedPods))
  }

  /** The rows `nodetool snapshot` adds for the tables of the keyspaces, or of all keyspaces if none is given. */
  function NewRows(name: string, tables: seq<(string, string)>, keyspaces: seq<string>): seq<Row> {
    if tables == [] then []
    else
      (if keyspaces == [] || tables[0].0 in keyspaces then [Listed(Snapshot(name, tables[0].0, tables[0].1), " ", " ", "")] else [])
      + NewRows(name, tables[1..], keyspaces)
  }

  datatype Error = PodsNotListed | NoPods | Failed(pods: seq<string>)

  /** `int64(d.Seconds())`: towards zero. */
  function WholeSeconds(d: int): int {
    if d >= 0 then d / NANOSECONDS_PER_SECOND else -(-d / NANOSECONDS_PER_SECOND)
  }

  function Cutoff(now: int, retention: int): int {
    now - WholeSeconds(retention)
  }

  class Manipulator {
    var pods: seq<PodState>

    constructor (pods: seq<PodState>)
      ensures this.pods == pods
    {
      this.pods := pods;
    }

    method GetSnapshots(i: nat, listed: bool, cutoff: int) returns (snapshots: Option<seq<Snapshot>>)
      requires i < |pods|
      ensures snapshots == if listed then Some(Selected(ParseLines(SplitLines(Output(pods[i].rows))), cutoff)) else None
    {
      if !listed {
        return None;
      }
      var all := ReadSnapshots(Output(pods[i].rows));
      var selected := OutsideRetentionPeriod(all, cutoff);
      return Some(selected);
    }

    method DeleteSnapshot(i: nat, snapshot: Snapshot, reply: Reply) returns (ok: bool)
      requires i < |pods|
      modifies this
      ensures ok == reply.Done?
      ensures pods == old(pods)[i := old(pods)[i].(rows := if TakesEffect(reply) then Clear(old(pods)[i].rows, snapshot) else old(pods)[i].rows)]
    {
      if TakesEffect(reply) {
        pods := pods[i := pods[i].(rows := Clear(pods[i].rows, snapshot))];
      }
      return reply.Done?;
    }

    /** The loop over the snapshots to delete on a pod. */
    method DeleteSnapshots(i: nat, snapshots: seq<Snapshot>, replies: Replies) returns (failed: seq<string>)
      requires i < |pods|
      modifies this
      ensures var cleaned := DeleteEach(old(pods)[i].rows, snapshots, replies.delete, 0);
              && pods == old(pods)[i := old(pods)[i].(rows := cleaned.rows)]
              && failed == Repeated(old(pods)[i].name, cleaned.failures)
    {
      failed := [];
      ghost var goal := DeleteEach(pods[i].rows, snapshots, replies.delete, 0);
      for k := 0 to |snapshots|
        invariant |pods| == |old(pods)| && pods[i].name == old(pods)[i].name
        invariant forall j :: 0 <= j < |pods| && j != i ==> pods[j] == old(pods)[j]
        invariant DeleteEach(pods[i].rows, snapshots[k..], replies.delete, k).rows == goal.rows
        invariant |failed| + DeleteEach(pods[i].rows, snapshots[k..], replies.delete, k).failures == goal.failures
        invariant failed == Repeated(pods[i].name, |failed|)
      {
        assert snapshots[k..][1..] == snapshots[k + 1..] && snapshots[k..][0] == snapshots[k];
        var ok := DeleteSnapshot(i, snapshots[k], replies.delete(k));
        if !ok {
          failed := failed + [pods[i].name];
        }
      }
      assert snapshots[|snapshots|..] == [];
    }

    /** The body of the loop over the pods. */
    method CleanUpPod(i: nat, cutoff: int, replies: Replies) returns (failed: seq<string>)
      requires i < |pods|
      modifies this
      ensures |pods| == |old(pods)| && forall k :: 0 <= k < |pods| && k != i ==> pods[k] == old(pods)[k]
      ensures pods[i] == CleanedPod(old(pods)[i], cutoff, replies)
      ensures failed == Repeated(old(pods)[i].name, FailuresOf(old(pods)[i], cutoff, replies))
    {
      var snapshots := GetSnapshots(i, replies.list, cutoff);
      if snapshots.None? {
        failed := [pods[i].name];
        assert Repeated(pods[i].name, 1) == Repeated(pods[i].name, 0) + failed;
      } else {
        failed := DeleteSnapshots(i, snapshots.value, replies);
      }
    }

    /** The loop over the pods. */
    method CleanUpPods(cutoff: int, replies: nat -> Replies) returns (failedPods: seq<string>)
      modifies this
      ensures failedPods == FailedNames(old(pods), cutoff, replies, |old(pods)|)
      ensures |pods| == |old(pods)|
      ensures forall i :: 0 <= i < |pods| ==> pods[i] == CleanedPod(old(pods)[i], cutoff, replies(i))
    {
      hide CleanPod;
      failedPods := [];
      ghost var before := pods;
      for i := 0 to |pods|
        invariant |pods| == |before|
        invariant forall k :: i <= k < |before| ==> pods[k] == before[k]
        invariant forall k :: 0 <= k < i ==> pods[k] == CleanedPod(before[k], cutoff, replies(k))
        invariant failedPods == FailedNames(before, cutoff, replies, i)
      {
        var failed := CleanUpPod(i, cutoff, replies(i));
        failedPods := failedPods + failed;
      }
    }

    method DoCleanup(now: int, retention: int, listed: bool, replies: nat -> Replies) returns (error: Option<Error>)
      modifies this
      ensures !listed ==> error == Some(PodsNotListed) && pods == old(pods)
      ensures listed && old(pods) == [] ==> error == Some(NoPods) && pods == old(pods)
      ensures listed && old(pods) != [] ==>
                && error == ErrorFor(FailedNames(old(pods), Cutoff(now, retention), replies, |old(pods)|))
                && |pods| == |old(pods)|
                && forall i :: 0 <= i < |pods| ==> pods[i] == CleanedPod(old(pods)[i], Cutoff(now, retention), replies(i))
    {
      if !listed {
        return Some(PodsNotListed);
      }
      if |pods| == 0 {
        return Some(NoPods);
      }
      var failedPods := CleanUpPods(Cutoff(now, retention), replies);
      return if |failedPods| == 0 then None else Some(Failed(failedPods));
    }

    /** `CreateSnapshot`, named after the time. */
    method CreateSnapshot(i: nat, time: int, keyspaces: seq<string>, tables: seq<(string, string)>, reply: Reply) returns (ok: bool)
      requires i < |pods|
      modifies this
      ensures ok == reply.Done?
      ensures pods == old(pods)[i := WithSnapshot(old(pods)[i], time, keyspaces, tables, reply)]
    {
      var snapshotName := FormatInt(time);
      if TakesEffect(reply) {
        pods := pods[i := pods[i].(rows := pods[i].rows + NewRows(snapshotName, tables, keyspaces))];
      }
      return reply.Done?;
    }

    method DoCreate(now: int, keyspaces: seq<string>, listed: bool, tables: nat -> seq<(string, string)>, replies: nat -> Replies)
      returns (error: Option<Error>)
      modifies this
      ensures !listed ==> error == Some(PodsNotListed) && pods == old(pods)
      ensures listed && old(pods) == [] ==> error == Some(NoPods) && pods == old(pods)
      ensures listed && old(pods) != [] ==>
                && error == ErrorFor(FailedCreations(old(pods), replies, |old(pods)|))
                && |pods| == |old(pods)|
                && forall i :: 0 <= i < |pods| ==> pods[i] == WithSnapshot(old(pods)[i], now, keyspaces, tables(i), replies(i).create)
    {
      if !listed {
        return Some(PodsNotListed);
      }
      if |pods| == 0 {
        return Some(NoPods);
      }
      var failedPods: seq<string> := [];
      for i := 0 to |pods|
        invariant |pods| == |old(pods)|
        invariant forall k :: i <= k < |pods| ==> pods[k] == old(pods)[k]
        invariant forall k :: 0 <= k < i ==> pods[k] == WithSnapshot(old(pods)[k], now, keyspaces, tables(k), replies(k).create)
        invariant failedPods == FailedCreations(old(pods), replies, i)
      {
        var ok := CreateSnapshot(i, now, keyspaces, tables(i), replies(i).create);
        if !ok {
          failedPods := failedPods + [pods[i].name];
        }
      }
      return if |failedPods| == 0 then None else Some(Failed(failedPods));
    }
  }

  // ---------- What is left after a cleanup

  predicate ExpiredRow(row: Row, cutoff: int) {
    IsNumeric(row) && IsExpired(row.snapshot, cutoff)
  }

  /** The table without the expired snapshots: every column family of theirs is gone, and nothing else. */
  function Unexpired(rows: seq<Row>, cutoff: int): seq<Row> {
    if rows == [] then []
    else (if ExpiredRow(rows[0], cutoff) then [] else [rows[0]]) + Unexpired(rows[1..], cutoff)
  }

  /** The table without the rows that any of the snapshots stands for. */
  function WithoutAll(rows: seq<Row>, snapshots: seq<Snapshot>): seq<Row> {
    if rows == [] then []
    else (if TargetedBy(rows[0], snapshots) then [] else [rows[0]]) + WithoutAll(rows[1..], snapshots)
  }

  predicate TargetedBy(row: Row, snapshots: seq<Snapshot>) {
    row.Listed? && IsSelected(row.snapshot, snapshots)
  }

  lemma {:induction false} WithoutFirst(rows: seq<Row>, first: Snapshot, rest: seq<Snapshot>)
    ensures WithoutAll(Clear(rows, first), rest) == WithoutAll(rows, [first] + rest)
  {
    if rows != [] {
      WithoutFirst(rows[1..], first, rest);
      var row := rows[0];
      if row.Listed? {
        SelectedCons(row.snapshot, first, rest);
      }
      if !Targets(row, first) {
        assert Clear(rows, first) == [row] + Clear(rows[1..], first);
        assert ([row] + Clear(rows[1..], first))[1..] == Clear(rows[1..], first);
      } else {
        assert Clear(rows, first) == Clear(rows[1..], first);
      }
    }
  }

  lemma SelectedCons(snapshot: Snapshot, first: Snapshot, rest: seq<Snapshot>)
    ensures IsSelected(snapshot, [first] + rest) <==> SameTarget(first, snapshot) || IsSelected(snapshot, rest)
  {
    var all := [first] + rest;
    if SameTarget(first, snapshot) {
      assert SameTarget(all[0], snapshot);
    }
    if IsSelected(snapshot, rest) {
      var i :| 0 <= i < |rest| && SameTarget(rest[i], snapshot);
      assert SameTarget(all[i + 1], snapshot);
    }
    if IsSelected(snapshot, all) {
      var i :| 0 <= i < |all| && SameTarget(all[i], snapshot);
      assert i > 0 ==> SameTarget(rest[i - 1], snapshot);
    }
  }

  /** The snapshots whose deletion took effect. */
  function Deleted(snapshots: seq<Snapshot>, delete: nat -> Reply, n: nat): seq<Snapshot>
    decreases |snapshots|
  {
    if snapshots == [] then []
    else (if TakesEffect(delete(n)) then [snapshots[0]] else []) + Deleted(snapshots[1..], delete, n + 1)
  }

  lemma {:induction false} WithoutNone(rows: seq<Row>)
    ensures WithoutAll(rows, []) == rows
  {
    if rows != [] {
      WithoutNone(rows[1..]);
    }
  }

  /** Whatever is answered, the rows left are those that no effective deletion stands for. */
  lemma {:induction false} DeletionsLeave(rows: seq<Row>, snapshots: seq<Snapshot>, delete: nat -> Reply, n: nat)
    ensures DeleteEach(rows, snapshots, delete, n).rows == WithoutAll(rows, Deleted(snapshots, delete, n))
    decreases |snapshots|
  {
    if snapshots == [] {
      WithoutNone(rows);
    } else if TakesEffect(delete(n)) {
      DeletionsLeave(Clear(rows, snapshots[0]), snapshots[1..], delete, n + 1);
      WithoutFirst(rows, snapshots[0], Deleted(snapshots[1..], delete, n + 1));
    } else {
      DeletionsLeave(rows, snapshots[1..], delete, n + 1);
      assert Deleted(snapshots, delete, n) == Deleted(snapshots[1..], delete, n + 1);
    }
  }

  lemma {:induction false} NumericSnapshotsAre(rows: seq<Row>)
    ensures forall row :: row in rows && IsNumeric(row) ==> row.snapshot in NumericSnapshots(rows)
    ensures forall s :: s in NumericSnapshots(rows) ==> AllDigits(s.name)
  {
    if rows != [] {
      NumericSnapshotsAre(rows[1..]);
    }
  }

  /** What is selected on a pod stands for exactly the expired rows of its table. */
  lemma SelectedStandsForExpired(rows: seq<Row>, cutoff: int)
    requires AllWellFormed(rows)
    ensures var selected := Selected(ParseLines(SplitLines(Output(rows))), cutoff);
            forall row :: row in rows ==> (TargetedBy(row, selected) <==> ExpiredRow(row, cutoff))
  {
    ListingRoundTrip(rows);
    var snapshots := NumericSnapshots(rows);
    var selected := Selected(snapshots, cutoff);
    SelectsExpiredOnce(snapshots, cutoff);
    NumericSnapshotsAre(rows);
    forall row | row in rows && TargetedBy(row, selected)
      ensures ExpiredRow(row, cutoff)
    {
      var i :| 0 <= i < |selected| && SameTarget(selected[i], row.snapshot);
      assert selected[i] in selected;
    }
  }

  lemma {:induction false} SameRowsLeft(rows: seq<Row>, snapshots: seq<Snapshot>, cutoff: int)
    requires forall row :: row in rows ==> (TargetedBy(row, snapshots) <==> ExpiredRow(row, cutoff))
    ensures WithoutAll(rows, snapshots) == Unexpired(rows, cutoff)
  {
    if rows != [] {
      SameRowsLeft(rows[1..], snapshots, cutoff);
    }
  }

  ghost predicate AllDone(replies: Replies) {
    replies.list && forall n: nat :: replies.delete(n).Done?
  }

  lemma {:induction false} AllAreDeleted(snapshots: seq<Snapshot>, delete: nat -> Reply, n: nat)
    requires forall k: nat :: delete(k).Done?
    ensures Deleted(snapshots, delete, n) == snapshots
    decreases |snapshots|
  {
    if snapshots != [] {
      AllAreDeleted(snapshots[1..], delete, n + 1);
    }
  }

  /**
   * On a pod whose calls succeed, a cleanup leaves precisely the rows that are not expired:
   * those with names that are not numbers or not below the cutoff, in their old order.
   */
  lemma CleanupLeavesTheUnexpired(rows: seq<Row>, cutoff: int, replies: Replies)
    requires AllWellFormed(rows) && AllDone(replies)
    ensures CleanPod(rows, cutoff, replies) == Cleaned(Unexpired(rows, cutoff), 0)
  {
    var selected := Selected(ParseLines(SplitLines(Output(rows))), cutoff);
    DeletionsLeave(rows, selected, replies.delete, 0);
    AllAreDeleted(selected, replies.delete, 0);
    SelectedStandsForExpired(rows, cutoff);
    SameRowsLeft(rows, selected, cutoff);
    CountsFailures(rows, selected, replies.delete, 0);
  }

  predicate AnyFails(snapshots: seq<Snapshot>, delete: nat -> Reply, n: nat) {
    exists k: nat :: n <= k < n + |snapshots| && !delete(k).Done?
  }

  lemma {:induction false} CountsFailures(rows: seq<Row>, snapshots: seq<Snapshot>, delete: nat -> Reply, n: nat)
    ensures DeleteEach(rows, snapshots, delete, n).failures > 0 <==> AnyFails(snapshots, delete, n)
    decreases |snapshots|
  {
    if snapshots != [] {
      CountsFailures(if TakesEffect(delete(n)) then Clear(rows, snapshots[0]) else rows, snapshots[1..], delete, n + 1);
    }
  }

  /** Whatever fails, only expired rows are ever removed. */
  lemma OnlyExpiredAreRemoved(rows: seq<Row>, cutoff: int, replies: Replies)
    requires AllWellFormed(rows)
    ensures var left := CleanPod(rows, cutoff, replies).rows;
            (forall row :: row in left ==> row in rows) &&
            (forall row :: row in rows && !ExpiredRow(row, cutoff) ==> row in left)
  {
    if replies.list {
      var selected := Selected(ParseLines(SplitLines(Output(rows))), cutoff);
      DeletionsLeave(rows, selected, replies.delete, 0);
      SelectedStandsForExpired(rows, cutoff);
      WithoutAllIs(rows, Deleted(selected, replies.delete, 0));
      DeletedAreSelected(selected, replies.delete, 0);
      forall row | row in rows && TargetedBy(row, Deleted(selected, replies.delete, 0))
        ensures TargetedBy(row, selected)
      {
        var deleted := Deleted(selected, replies.delete, 0);
        var i :| 0 <= i < |deleted| && SameTarget(deleted[i], row.snapshot);
        assert deleted[i] in selected;
        var k :| 0 <= k < |selected| && selected[k] == deleted[i];
        assert SameTarget(selected[k], row.snapshot);
      }
    }
  }

  lemma {:induction false} WithoutAllIs(rows: seq<Row>, snapshots: seq<Snapshot>)
    ensures forall row :: row in WithoutAll(rows, snapshots) <==> row in rows && !TargetedBy(row, snapshots)
  {
    if rows != [] {
      WithoutAllIs(rows[1..], snapshots);
      assert rows == [rows[0]] + rows[1..];
    }
  }

  lemma {:induction false} DeletedAreSelected(snapshots: seq<Snapshot>, delete: nat -> Reply, n: nat)
    ensures forall s :: s in Deleted(snapshots, delete, n) ==> s in snapshots
    decreases |snapshots|
  {
    if snapshots != [] {
      DeletedAreSelected(snapshots[1..], delete, n + 1);
    }
  }

  /** A pod counts as failed if listing fails or any deletion it needs does. */
  predicate PodFails(pod: PodState, cutoff: int, replies: Replies) {
    !replies.list || AnyFails(Selected(ParseLines(SplitLines(Output(pod.rows))), cutoff), replies.delete, 0)
  }

  lemma PodFailsExactlyWhen(pod: PodState, cutoff: int, replies: Replies)
    ensures PodFails(pod, cutoff, replies) <==> FailuresOf(pod, cutoff, replies) > 0
  {
    CountsFailures(pod.rows, Selected(ParseLines(SplitLines(Output(pod.rows))), cutoff), replies.delete, 0);
  }

  lemma {:induction false} NobodyNamed(pods: seq<PodState>, cutoff: int, replies: nat -> Replies, n: nat)
    requires n <= |pods|
    ensures FailedNames(pods, cutoff, replies, n) == [] <==>
            forall i :: 0 <= i < n ==> FailuresOf(pods[i], cutoff, replies(i)) == 0
  {
    hide CleanPod;
    if n > 0 {
      NobodyNamed(pods, cutoff, replies, n - 1);
      LastNamed(FailedNames(pods, cutoff, replies, n - 1), pods[n - 1].name, FailuresOf(pods[n - 1], cutoff, replies(n - 1)));
    }
  }

  lemma LastNamed(names: seq<string>, name: string, n: nat)
    ensures names + Repeated(name, n) == [] <==> names == [] && n == 0
  {
    assert |names + Repeated(name, n)| == |names| + n;
  }

  /** A cleanup that found pods ends with an error exactly when one of them failed. */
  lemma ErrorExactlyWhenAPodFails(pods: seq<PodState>, cutoff: int, replies: nat -> Replies)
    ensures ErrorFor(FailedNames(pods, cutoff, replies, |pods|)).Some? <==>
            exists i :: 0 <= i < |pods| && PodFails(pods[i], cutoff, replies(i))
  {
    NobodyNamed(pods, cutoff, replies, |pods|);
    forall i | 0 <= i < |pods|
      ensures PodFails(pods[i], cutoff, replies(i)) <==> FailuresOf(pods[i], cutoff, replies(i)) > 0
    {
      PodFailsExactlyWhen(pods[i], cutoff, replies(i));
    }
  }

  // ---------- A snapshot's life

  /**
   * With a retention of some days, a snapshot taken at `time` is expired at `now` exactly
   * when it is older than that many days.
   */
  lemma ExpiresAfterDays(time: int, now: int, days: int, keyspace: string, columnFamily: string)
    requires INT64_MIN <= time <= INT64_MAX && 0 <= days <= MAX_RETENTION_DAYS
    ensures IsExpired(Snapshot(FormatInt(time), keyspace, columnFamily), Cutoff(now, DurationDays(days))) <==>
            now - time > SECONDS_PER_DAY * days
  {
    DaysAreExact(days);
    AtoiFormatInt(time);
    assert DurationDays(days) == (SECONDS_PER_DAY * days) * NANOSECONDS_PER_SECOND;
  }

  /** Beyond the range of durations the period wraps around, and fresh snapshots expire at once. */
  lemma LongRetentionWraps(now: int)
    ensures WholeSeconds(DurationDays(MAX_RETENTION_DAYS + 1)) < 0
    ensures Cutoff(now, DurationDays(MAX_RETENTION_DAYS + 1)) > now
  {
    WrapOnce(MAX_RETENTION_DAYS + 1);
  }

  lemma {:induction false} UnexpiredAppend(a: seq<Row>, b: seq<Row>, cutoff: int)
    ensures Unexpired(a + b, cutoff) == Unexpired(a, cutoff) + Unexpired(b, cutoff)
  {
    if a == [] {
      assert a + b == b;
    } else {
      assert (a + b)[1..] == a[1..] + b;
      UnexpiredAppend(a[1..], b, cutoff);
    }
  }

  /** The rows of one snapshot stay or go together. */
  lemma {:induction false} NewRowsExpireTogether(time: int, now: int, days: int, tables: seq<(string, string)>, keyspaces: seq<string>)
    requires 0 <= time <= INT64_MAX && 0 <= days <= MAX_RETENTION_DAYS
    ensures var rows := NewRows(FormatInt(time), tables, keyspaces);
            Unexpired(rows, Cutoff(now, DurationDays(days))) == if now - time > SECONDS_PER_DAY * days then [] else rows
  {
    if tables != [] {
      NewRowsExpireTogether(time, now, days, tables[1..], keyspaces);
      TimestampRoundTrip(time);
      ExpiresAfterDays(time, now, days, tables[0].0, tables[0].1);
      var rest := NewRows(FormatInt(time), tables[1..], keyspaces);
      var row := Listed(Snapshot(FormatInt(time), tables[0].0, tables[0].1), " ", " ", "");
      assert ([row] + rest)[1..] == rest;
      assert [] + rest == rest;
    }
  }

  lemma {:induction false} NewRowsAreWellFormed(time: int, tables: seq<(string, string)>, keyspaces: seq<string>)
    requires 0 <= time <= INT64_MAX
    requires forall t :: t in tables ==> IsRun(t.0, Word) && IsRun(t.1, Word)
    ensures AllWellFormed(NewRows(FormatInt(time), tables, keyspaces))
  {
    if tables != [] {
      NewRowsAreWellFormed(time, tables[1..], keyspaces);
      TimestampRoundTrip(time);
      var row := Listed(Snapshot(FormatInt(time), tables[0].0, tables[0].1), " ", " ", "");
      assert IsRun(" ", Space) && WellFormed(row);
    }
  }

  /**
   * From beginning to end: a pod's snapshot of some time, listed by name among whatever else
   * the table holds, is there after a later cleanup exactly while it is not older than the
   * retention period; and the rest of the table is cleaned up as if it had never been taken.
   */
  lemma SnapshotLife(pod: PodState, time: int, now: int, days: int, keyspaces: seq<string>, tables: seq<(string, string)>, replies: Replies)
    requires AllWellFormed(pod.rows) && 0 <= time <= INT64_MAX && 0 <= days <= MAX_RETENTION_DAYS
    requires forall t :: t in tables ==> IsRun(t.0, Word) && IsRun(t.1, Word)
    requires AllDone(replies) && replies.create.Done?
    ensures var cutoff, taken := Cutoff(now, DurationDays(days)), WithSnapshot(pod, time, keyspaces, tables, replies.create);
            CleanedPod(taken, cutoff, replies).rows ==
            Unexpired(pod.rows, cutoff) +
            if now - time > SECONDS_PER_DAY * days then [] else NewRows(FormatInt(time), tables, keyspaces)
  {
    var cutoff, rows := Cutoff(now, DurationDays(days)), NewRows(FormatInt(time), tables, keyspaces);
    NewRowsAreWellFormed(time, tables, keyspaces);
    CleanupLeavesTheUnexpired(pod.rows + rows, cutoff, replies);
    UnexpiredAppend(pod.rows, rows, cutoff);
    NewRowsExpireTogether(time, now, days, tables, keyspaces);
  }
  // ---------- Which tables have a snapshot

  predicate HasSnapshot(rows: seq<Row>, name: string, keyspace: string, table: string) {
    exists i :: 0 <= i < |rows| && rows[i].Listed? && rows[i].snapshot == Snapshot(name, keyspace, table)
  }

  /** All tables are wanted, unless keyspaces are named. */
  predicate IsWanted(keyspace: string, table: string, tables: seq<(string, string)>, keyspaces: seq<string>) {
    (keyspace, table) in tables && (keyspaces == [] || keyspace in keyspaces)
  }

  lemma HasSnapshotInEither(a: seq<Row>, b: seq<Row>, name: string, keyspace: string, table: string)
    ensures HasSnapshot(a + b, name, keyspace, table) <==> HasSnapshot(a, name, keyspace, table) || HasSnapshot(b, name, keyspace, table)
  {
    if i :| 0 <= i < |a| && a[i].Listed? && a[i].snapshot == Snapshot(name, keyspace, table) {
      assert (a + b)[i] == a[i];
    }
    if i :| 0 <= i < |b| && b[i].Listed? && b[i].snapshot == Snapshot(name, keyspace, table) {
      assert (a + b)[|a| + i] == b[i];
    }
  }

  /** A snapshot gives a row to each wanted table, under its own name, and to no other. */
  lemma {:induction false} NewRowsAre(name: string, tables: seq<(string, string)>, keyspaces: seq<string>,
                                      other: string, keyspace: string, table: string)
    ensures HasSnapshot(NewRows(name, tables, keyspaces), other, keyspace, table) <==>
            other == name && IsWanted(keyspace, table, tables, keyspaces)
    ensures forall row :: row in NewRows(name, tables, keyspaces) ==> row.Listed?
    ensures keyspaces == [] ==> |NewRows(name, tables, keyspaces)| == |tables|
  {
    if tables != [] {
      var row, rest := Listed(Snapshot(name, tables[0].0, tables[0].1), " ", " ", ""), NewRows(name, tables[1..], keyspaces);
      NewRowsAre(name, tables[1..], keyspaces, other, keyspace, table);
      HasSnapshotInEither([row], rest, other, keyspace, table);
      assert HasSnapshot([row], other, keyspace, table) <==> [row][0].snapshot == Snapshot(other, keyspace, table);
      if keyspaces == [] || tables[0].0 in keyspaces {
        assert NewRows(name, tables, keyspaces) == [row] + rest;
      } else {
        assert NewRows(name, tables, keyspaces) == rest;
      }
    }
  }

  lemma {:induction false} UnexpiredHas(rows: seq<Row>, cutoff: int)
    ensures forall row :: row in Unexpired(rows, cutoff) <==> row in rows && !ExpiredRow(row, cutoff)
  {
    if rows != [] {
      UnexpiredHas(rows[1..], cutoff);
    }
  }

  /**
   * So after a snapshot and a later cleanup a table has a snapshot of that time exactly if the
   * time is within the retention period and the table is wanted, or had one already.
   */
  lemma TablesWithSnapshot(pod: PodState, time: int, now: int, days: int, keyspaces: seq<string>, tables: seq<(string, string)>,
                           replies: Replies, keyspace: string, table: string)
    requires AllWellFormed(pod.rows) && 0 <= time <= INT64_MAX && 0 <= days <= MAX_RETENTION_DAYS
    requires forall t :: t in tables ==> IsRun(t.0, Word) && IsRun(t.1, Word)
    requires AllDone(replies) && replies.create.Done?
    ensures var cutoff, taken := Cutoff(now, DurationDays(days)), WithSnapshot(pod, time, keyspaces, tables, replies.create);
            HasSnapshot(CleanedPod(taken, cutoff, replies).rows, FormatInt(time), keyspace, table) <==>
            && now - time <= SECONDS_PER_DAY * days
            && (IsWanted(keyspace, table, tables, keyspaces) || HasSnapshot(pod.rows, FormatInt(time), keyspace, table))
  {
    hide CleanedPod, WithSnapshot, NewRows, Unexpired, AllWellFormed;
    var name, cutoff := FormatInt(time), Cutoff(now, DurationDays(days));
    var old_, new_ := Unexpired(pod.rows, cutoff), NewRows(name, tables, keyspaces);
    SnapshotLife(pod, time, now, days, keyspaces, tables, replies);
    NewRowsAre(name, tables, keyspaces, name, keyspace, table);
    HasSnapshotInEither(old_, new_, name, keyspace, table);
    HadSnapshot(pod.rows, time, now, days, keyspace, table);
    assert old_ + [] == old_;
  }

  lemma HadSnapshot(rows: seq<Row>, time: int, now: int, days: int, keyspace: string, table: string)
    requires 0 <= time <= INT64_MAX && 0 <= days <= MAX_RETENTION_DAYS
    ensures HasSnapshot(Unexpired(rows, Cutoff(now, DurationDays(days))), FormatInt(time), keyspace, table) <==>
            now - time <= SECONDS_PER_DAY * days && HasSnapshot(rows, FormatInt(time), keyspace, table)
  {
    hide Cutoff, DurationDays, Unexpired, FormatInt;
    var cutoff, name := Cutoff(now, DurationDays(days)), FormatInt(time);
    var left := Unexpired(rows, cutoff);
    UnexpiredHas(rows, cutoff);
    TimestampRoundTrip(time);
    ExpiresAfterDays(time, now, days, keyspace, table);
    if i :| 0 <= i < |left| && left[i].Listed? && left[i].snapshot == Snapshot(name, keyspace, table) {
      assert left[i] in rows;
    }
    if i :| 0 <= i < |rows| && rows[i].Listed? && rows[i].snapshot == Snapshot(name, keyspace, table) {
      assert rows[i] in rows;
      assert now - time <= SECONDS_PER_DAY * days ==> rows[i] in left;
    }
  }
}
