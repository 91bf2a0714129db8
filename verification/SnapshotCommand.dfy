/**
 * The command line of the snapshot tool: what the tool makes of the commands that the
 * operator puts into the snapshot jobs.
 */
module SnapshotCommand {
  import opened Wrappers
  import opened Sequences
  import opened ClusterSpec
  import opened Durations
  import opened SnapshotJobs
  import SnapshotEvents
  import SnapshotHistory
  import SnapshotListing
  import Retention
  import Strings = Text

  const DEFAULT_TIMEOUT := 10 * NANOSECONDS_PER_SECOND
  const DEFAULT_RETENTION_DAYS := 7

  /** The values of the flags; the keyspaces are absent until their flag is given. */
  datatype Flags = Flags(namespace: string, podLabel: string, keyspaces: Option<seq<string>>, timeout: int, retention: int)

  datatype Invocation = Create(flags: Flags) | Cleanup(flags: Flags)

  const DEFAULT_FLAGS :=
    Flags("", "", None, DEFAULT_TIMEOUT, DEFAULT_RETENTION_DAYS * SECONDS_PER_DAY * NANOSECONDS_PER_SECOND)

  // ---------- Parsing

  function SplitCommas(s: string): (parts: seq<string>)
    ensures parts != []
  {
    if s == [] then [[]]
    else
      var parts := SplitCommas(s[1..]);
      if s[0] == ',' then [[]] + parts else [[s[0]] + parts[0]] + parts[1..]
  }

  /** The value of a list flag, for values without quotes; an empty value is an empty list. */
  function ParseList(s: string): seq<string> {
    if s == "" then [] else SplitCommas(s)
  }

  /** Setting a flag: unknown flags and values of the wrong kind are errors; a list flag adds to its value. */
  function SetFlag(flag: Argument, value: Argument, isCleanup: bool, flags: Flags): Option<Flags> {
    if flag == Text("-n") && value.Text? then Some(flags.(namespace := value.text))
    else if flag == Text("-l") && value.Text? then Some(flags.(podLabel := value.text))
    else if flag == Text("-k") && value.Text? then
      Some(flags.(keyspaces := Some((if flags.keyspaces.None? then [] else flags.keyspaces.value) + ParseList(value.text))))
    else if flag == Text("-t") && value.Duration? then Some(flags.(timeout := value.nanoseconds))
    else if flag == Text("-r") && value.Duration? && isCleanup then Some(flags.(retention := value.nanoseconds))
    else None
  }

  function ParseFlags(arguments: seq<Argument>, isCleanup: bool, flags: Flags): Option<Flags> {
    if arguments == [] then Some(flags)
    else if |arguments| == 1 then None
    else
      var next := SetFlag(arguments[0], arguments[1], isCleanup, flags);
      if next.None? then None else ParseFlags(arguments[2..], isCleanup, next.value)
  }

  /** The program's name, its subcommand and the flags. */
  function ParseCommand(command: seq<Argument>): Option<Invocation> {
    if |command| < 2 then None
    else if command[1] == Text("create") then
      var flags := ParseFlags(command[2..], false, DEFAULT_FLAGS);
      if flags.None? then None else Some(Create(flags.value))
    else if command[1] == Text("cleanup") then
      var flags := ParseFlags(command[2..], true, DEFAULT_FLAGS);
      if flags.None? then None else Some(Cleanup(flags.value))
    else None
  }

  lemma ParsePair(flag: Argument, value: Argument, rest: seq<Argument>, isCleanup: bool, flags: Flags)
    ensures ParseFlags([flag, value] + rest, isCleanup, flags) ==
            var next := SetFlag(flag, value, isCleanup, flags);
            if next.None? then None else ParseFlags(rest, isCleanup, next.value)
  {
    assert ([flag, value] + rest)[2..] == rest;
  }

  // ---------- Lists of keyspaces

  lemma {:induction false} SplitFirst(name: string, rest: string)
    requires ',' !in name
    ensures SplitCommas(name + ("," + rest)) == [name] + SplitCommas(rest)
  {
    var s := name + ("," + rest);
    if name == [] {
      assert s[1..] == rest && s[0] == ',';
    } else {
      assert s[1..] == name[1..] + ("," + rest) && s[0] == name[0];
      SplitFirst(name[1..], rest);
      assert [name[0]] + name[1..] == name;
    }
  }

  lemma {:induction false} SplitOnly(name: string)
    requires ',' !in name
    ensures SplitCommas(name) == [name]
  {
    if name != [] {
      SplitOnly(name[1..]);
      assert [name[0]] + name[1..] == name;
    }
  }

  predicate HasNoCommas(names: seq<string>) {
    forall i :: 0 <= i < |names| ==> ',' !in names[i]
  }

  lemma {:induction false} SplitsJoined(names: seq<string>)
    requires names != [] && HasNoCommas(names)
    ensures SplitCommas(JoinedByComma(names)) == names
    ensures JoinedByComma(names) == "" <==> names == [""]
  {
    if |names| == 1 {
      SplitOnly(names[0]);
    } else {
      SplitsJoined(names[1..]);
      SplitFirst(names[0], JoinedByComma(names[1..]));
      assert names[0] + "," + JoinedByComma(names[1..]) == names[0] + ("," + JoinedByComma(names[1..]));
    }
  }

  lemma {:induction false} PartsHaveNoCommas(s: string)
    ensures HasNoCommas(SplitCommas(s))
  {
    if s != [] {
      PartsHaveNoCommas(s[1..]);
    }
  }

  /** A list of names comes through exactly when no name contains a comma and it is not a single empty name. */
  lemma ListRoundTrip(names: seq<string>)
    ensures ParseList(JoinedByComma(names)) == names <==> HasNoCommas(names) && names != [""]
  {
    PartsHaveNoCommas(JoinedByComma(names));
    if names != [] && HasNoCommas(names) {
      SplitsJoined(names);
    }
  }

  // ---------- From the specification to the tool

  /** The label by which the tool finds the pods of the cluster. */
  function PodLabel(id: ClusterId): string {
    "sky.uk/cassandra-operator=" + id.name + ",app=" + id.name
  }

  function TimeoutOrDefault(seconds: Option<int>): int {
    if seconds.None? then 10_000_000_000 else DurationSeconds(seconds.value)
  }

  function RetentionOrDefault(days: Option<int>): int {
    if days.None? then 7 * 86_400_000_000_000 else DurationDays(days.value)
  }

  lemma ParseTimeout(seconds: Option<int>, rest: seq<Argument>, isCleanup: bool, flags: Flags)
    requires flags.timeout == DEFAULT_TIMEOUT
    ensures ParseFlags(TimeoutArguments(seconds) + rest, isCleanup, flags) ==
            ParseFlags(rest, isCleanup, flags.(timeout := TimeoutOrDefault(seconds)))
  {
    if seconds.Some? {
      ParsePair(Text("-t"), Duration(DurationSeconds(seconds.value)), rest, isCleanup, flags);
    } else {
      assert [] + rest == rest;
    }
  }

  lemma ParseKeyspaces(keyspaces: Option<seq<string>>, flags: Flags)
    requires flags.keyspaces.None?
    ensures ParseFlags(KeyspaceArguments(keyspaces), false, flags) ==
            Some(if keyspaces.None? || keyspaces.value == [] then flags
                 else flags.(keyspaces := Some(ParseList(JoinedByComma(keyspaces.value)))))
  {
    if keyspaces.Some? && keyspaces.value != [] {
      var arguments := [Text("-k"), Text(JoinedByComma(keyspaces.value))];
      var list := ParseList(JoinedByComma(keyspaces.value));
      assert arguments + [] == arguments && [] + list == list;
      ParsePair(arguments[0], arguments[1], [], false, flags);
    }
  }

  lemma ParseRetention(days: Option<int>, rest: seq<Argument>, flags: Flags)
    ensures ParseFlags(RetentionArguments(days) + rest, true, flags) ==
            ParseFlags(rest, true, if days.None? then flags else flags.(retention := DurationDays(days.value)))
  {
    if days.Some? {
      ParsePair(Text("-r"), Duration(DurationDays(days.value)), rest, true, flags);
    } else {
      assert [] + rest == rest;
    }
  }

  lemma ParseCluster(action: string, id: ClusterId, rest: seq<Argument>, isCleanup: bool)
    ensures var command := CommandFor(action, id) + rest;
            && |command| >= 2 && command[1] == Text(action)
            && ParseFlags(command[2..], isCleanup, DEFAULT_FLAGS) ==
               ParseFlags(rest, isCleanup, DEFAULT_FLAGS.(namespace := id.namespace, podLabel := PodLabel(id)))
  {
    var command := CommandFor(action, id) + rest;
    var label_ := [Text("-l"), Text(PodLabel(id))] + rest;
    assert OPERATOR_LABEL + "=" + id.name + "," + "app=" + id.name == PodLabel(id);
    assert command[2..] == [Text("-n"), Text(id.namespace)] + label_;
    ParsePair(Text("-n"), Text(id.namespace), label_, isCleanup, DEFAULT_FLAGS);
    ParsePair(Text("-l"), Text(PodLabel(id)), rest, isCleanup, DEFAULT_FLAGS.(namespace := id.namespace));
  }

  /**
   * The tool understands the command of a snapshot job as the specification means it,
   * exactly when the list of keyspaces comes through.
   */
  lemma SnapshotCommandRoundTrip(id: ClusterId, snapshot: Snapshot)
    ensures ParseCommand(SnapshotContainer(id, snapshot).command) ==
            Some(Create(Flags(
                   id.namespace,
                   PodLabel(id),
                   if snapshot.keyspaces == Some([]) then None else snapshot.keyspaces,
                   TimeoutOrDefault(snapshot.timeoutSeconds),
                   RetentionOrDefault(None))))
            <==> (snapshot.keyspaces.Some? ==> HasNoCommas(snapshot.keyspaces.value) && snapshot.keyspaces.value != [""])
  {
    if snapshot.keyspaces.Some? {
      ListRoundTrip(snapshot.keyspaces.value);
    }
    var keyspaces := KeyspaceArguments(snapshot.keyspaces);
    var flags := DEFAULT_FLAGS.(namespace := id.namespace, podLabel := PodLabel(id));
    Associative(CommandFor("create", id), TimeoutArguments(snapshot.timeoutSeconds), keyspaces);
    ParseCluster("create", id, TimeoutArguments(snapshot.timeoutSeconds) + keyspaces, false);
    ParseTimeout(snapshot.timeoutSeconds, keyspaces, false, flags);
    ParseKeyspaces(snapshot.keyspaces, flags.(timeout := TimeoutOrDefault(snapshot.timeoutSeconds)));
  }

  lemma CleanupCommandRoundTrip(id: ClusterId, snapshot: Snapshot)
    requires snapshot.retentionPolicy.Some?
    ensures ParseCommand(CleanupContainer(id, snapshot).command) ==
            Some(Cleanup(Flags(
                   id.namespace,
                   PodLabel(id),
                   None,
                   TimeoutOrDefault(snapshot.retentionPolicy.value.cleanupTimeoutSeconds),
                   RetentionOrDefault(snapshot.retentionPolicy.value.retentionPeriodDays))))
  {
    var policy := snapshot.retentionPolicy.value;
    var retention, timeout := RetentionArguments(policy.retentionPeriodDays), TimeoutArguments(policy.cleanupTimeoutSeconds);
    var flags := DEFAULT_FLAGS.(namespace := id.namespace, podLabel := PodLabel(id));
    assert "cleanup"[1] != "create"[1];
    Associative(CommandFor("cleanup", id), retention, timeout);
    ParseCluster("cleanup", id, retention + timeout, true);
    ParseRetention(policy.retentionPeriodDays, timeout, flags);
    assert timeout + [] == timeout;
    ParseTimeout(policy.cleanupTimeoutSeconds, [], true, flags.(retention := RetentionOrDefault(policy.retentionPeriodDays)));
  }

  function DaysOrDefault(days: Option<int>): int {
    if days.None? then 7 else days.value
  }

  /**
   * From the specification to the snapshots: after any history of events, a cleanup job
   * there is makes the tool remove, on the pods of its cluster, exactly the snapshots that
   * are older than the days of retention in the current specification.
   */
  lemma CleanupJobKeepsRetention(events: seq<Event>, api: Api, isCron: string -> bool, id: ClusterId, w: World,
                                 time: int, now: int, keyspace: string, columnFamily: string)
    requires SnapshotEvents.AllSucceed(api) && SnapshotHistory.IsHistory(events, isCron)
    requires SnapshotHistory.AfterEvents(events, api, isCron) == Some(w) && CleanupKey(id) in w.jobs
    requires Strings.INT64_MIN <= time <= Strings.INT64_MAX
    ensures var spec := SnapshotHistory.CurrentSpec(events, isCron, id);
            && spec.Some? && SnapshotEvents.CleansUp(spec.value)
            && var days := DaysOrDefault(spec.value.snapshot.value.retentionPolicy.value.retentionPeriodDays);
               var parsed := ParseCommand(w.jobs[CleanupKey(id)].container.command);
            && parsed.Some? && parsed.value.Cleanup?
            && parsed.value.flags.namespace == id.namespace && parsed.value.flags.podLabel == PodLabel(id)
            && (0 <= days <= MAX_RETENTION_DAYS ==>
                  (Retention.IsExpired(SnapshotListing.Snapshot(Strings.FormatInt(time), keyspace, columnFamily),
                                       Retention.Cutoff(now, parsed.value.flags.retention)) <==>
                   now - time > SECONDS_PER_DAY * days))
  {
    SnapshotHistory.CleanupJobFollowsSpec(events, api, isCron, id, w);
    var snapshot := SnapshotEvents.Recorded(SnapshotHistory.CurrentSpec(events, isCron, id).value.snapshot.value);
    var days := DaysOrDefault(snapshot.retentionPolicy.value.retentionPeriodDays);
    CleanupCommandRoundTrip(id, snapshot);
    if 0 <= days <= MAX_RETENTION_DAYS {
      DaysAreExact(days);
      Retention.ExpiresAfterDays(time, now, days, keyspace, columnFamily);
    }
  }
}
