/**
 * The additions to `jvm.options`: two java agents, which must not conflict with agents
 * already configured, and memory settings derived from the pod's resources.
 */
module JvmOptions {
  import opened Wrappers
  import opened Text
  import opened ConfigFiles

  const BYTES_PER_MEGABYTE := 1048576

  predicate Led(prefix: string, lines: seq<string>) {
    exists i :: 0 <= i < |lines| && StartsWith(lines[i], prefix)
  }

  /**
   * A line to add unless some line already has the prefix; an exclusive line tolerates no
   * other line with its prefix unless it is itself there.
   */
  datatype Requirement = Requirement(prefix: string, line: string, exclusive: bool)

  function Require(requirement: Requirement, file: ConfigFile): Outcome
  {
    if file.Absent? then Outcome(file, Some(UnreadableFile))
    else if !Led(requirement.prefix, file.lines) then Outcome(file.Appended([requirement.line]), None)
    else if requirement.exclusive && requirement.line !in file.lines then Outcome(file, Some(ConflictingAgent(requirement.prefix)))
    else Outcome(file, None)
  }

  function RequireAll(requirements: seq<Requirement>, file: ConfigFile): Outcome {
    if requirements == [] then Outcome(file, None)
    else
      var first := Require(requirements[0], file);
      if first.failure.Some? then first else RequireAll(requirements[1..], first.file)
  }

  // ---------- Java agents

  function AgentPrefix(jar: string): string {
    "-javaagent:" + jar
  }

  function JmxPrometheusAgent(libPath: string, configPath: string): Requirement {
    var jar := libPath + "/jmx_prometheus_javaagent.jar";
    Requirement(AgentPrefix(jar), AgentPrefix(jar) + "=7070:" + configPath + "/prometheus.yml", true)
  }

  function JolokiaAgent(libPath: string, configPath: string): Requirement {
    var jar := libPath + "/jolokia-jvm-agent.jar";
    Requirement(AgentPrefix(jar),
                AgentPrefix(jar) + "=port=7777,host=*,policyLocation=file://" + configPath + "/jolokia-policy.xml", true)
  }

  // ---------- Memory settings

  function Max(a: int, b: int): int {
    if a < b then b else a
  }

  function Min(a: int, b: int): int {
    if a < b then a else b
  }

  /** Java's division of a `long` by a positive one: it truncates towards zero. */
  function Quotient(a: int, b: int): int
    requires b > 0
  {
    if a >= 0 then a / b else -((-a) / b)
  }

  function HeapBytes(memoryBytes: int): int {
    Max(1, Quotient(memoryBytes, 2))
  }

  function YoungGenerationMegabytes(memoryBytes: int, cpuMillicores: int): int {
    var byCpu := Max(Quotient(cpuMillicores, 10), 100);
    var byMemory := Quotient(Quotient(memoryBytes, BYTES_PER_MEGABYTE), 8);
    Max(Min(byCpu, byMemory), 1)
  }

  function MemoryRequirements(memoryBytes: int, cpuMillicores: int): seq<Requirement> {
    [Requirement("-Xmx", "-Xmx" + FormatInt(HeapBytes(memoryBytes)), false),
     Requirement("-Xms", "-Xms" + FormatInt(HeapBytes(memoryBytes)), false),
     Requirement("-Xmn", "-Xmn" + FormatInt(YoungGenerationMegabytes(memoryBytes, cpuMillicores)) + "M", false)]
  }

  /** The lines of the requirements that no line of the file meets, all checked on the same file. */
  function Unmet(requirements: seq<Requirement>, lines: seq<string>): seq<string> {
    if requirements == [] then []
    else (if Led(requirements[0].prefix, lines) then [] else [requirements[0].line]) + Unmet(requirements[1..], lines)
  }

  /**
   * `JvmMemoryDefaults.apply`: all missing lines are appended in one go, and nothing is
   * appended when a variable is missing or not a number. The CPU is only parsed when the
   * young generation has to be sized.
   */
  function MemoryDefaults(memory: Option<string>, cpu: Option<string>, file: ConfigFile): Outcome {
    if file.Absent? then Outcome(file, Some(UnreadableFile))
    else if memory.None? then Outcome(file, Some(MissingVariable("POD_MEMORY_BYTES")))
    else if Atoi(memory.value).None? then Outcome(file, Some(NotANumber(memory.value)))
    else if cpu.None? then Outcome(file, Some(MissingVariable("POD_CPU_MILLICORES")))
    else if !Led("-Xmn", file.lines) && Atoi(cpu.value).None? then Outcome(file, Some(NotANumber(cpu.value)))
    else
      var requirements := MemoryRequirements(Atoi(memory.value).value, NumberOr(cpu.value, 0));
      Outcome(file.Appended(Unmet(requirements, file.lines)), None)
  }

  function NumberOr(text: string, default: int): int {
    if Atoi(text).Some? then Atoi(text).value else default
  }

  // ---------- Both steps

  function AllRequirements(libPath: string, configPath: string, memoryBytes: int, cpuMillicores: int): seq<Requirement> {
    [JmxPrometheusAgent(libPath, configPath), JolokiaAgent(libPath, configPath)]
    + MemoryRequirements(memoryBytes, cpuMillicores)
  }

  function Configure(libPath: string, configPath: string, memory: Option<string>, cpu: Option<string>, file: ConfigFile): Outcome {
    var agents := RequireAll([JmxPrometheusAgent(libPath, configPath), JolokiaAgent(libPath, configPath)], file);
    if agents.failure.Some? then agents else MemoryDefaults(memory, cpu, agents.file)
  }

  // ---------- What makes the requirements independent of each other

  /** The text does not overlap itself: no proper suffix of it is also a prefix. */
  ghost predicate Unbordered(s: string) {
    forall d :: 1 <= d < |s| ==> s[d..] != s[..|s| - d]
  }

  ghost predicate Independent(requirements: seq<Requirement>) {
    && (forall r :: r in requirements ==> StartsWith(r.line, r.prefix) && Unbordered(r.prefix))
    && (forall i, j :: 0 <= i < |requirements| && 0 <= j < |requirements| && i != j ==>
          !StartsWith(requirements[j].line, requirements[i].prefix))
  }

  /** Gluing a line onto an unterminated one hides it. */
  lemma GluedLineIsNotLed(last: string, requirement: Requirement)
    requires last != "" && !StartsWith(last, requirement.prefix)
    requires StartsWith(requirement.line, requirement.prefix) && Unbordered(requirement.prefix)
    ensures !StartsWith(last + requirement.line, requirement.prefix)
  {
    var p, d, glued := requirement.prefix, |last|, last + requirement.line;
    if d < |p| {
      assert glued[..|p|][d..] == requirement.line[..|p| - d] == p[..|p| - d];
      assert p[..|p| - d] != p[d..];
    } else {
      assert glued[..|p|] == last[..|p|];
    }
  }

  /** Requirements are met by a run that succeeds without changing the file, and only then. */
  lemma {:induction false} UnchangedMeansMet(requirements: seq<Requirement>, file: ConfigFile)
    requires file.Present?
    ensures RequireAll(requirements, file) == Outcome(file, None) <==>
            forall r :: r in requirements ==> Led(r.prefix, file.lines) && (r.exclusive ==> r.line in file.lines)
    ensures var after := RequireAll(requirements, file).file;
            after.Present? && |after.lines| >= |file.lines| && (|after.lines| == |file.lines| && file.terminated ==> after == file)
  {
    if requirements != [] {
      var first := Require(requirements[0], file);
      UnchangedMeansMet(requirements[1..], first.file);
      assert forall r :: r in requirements <==> r == requirements[0] || r in requirements[1..];
    }
  }

  /** On a file that ends in a line separator, lines are only ever added. */
  lemma {:induction false} TerminatedRunMeetsAll(requirements: seq<Requirement>, file: ConfigFile)
    requires file.Present? && (file.terminated || file.lines == [])
    requires forall r :: r in requirements ==> StartsWith(r.line, r.prefix)
    ensures var after := RequireAll(requirements, file);
            && after.file.Present?
            && (file.terminated ==> after.file.terminated)
            && file.lines <= after.file.lines
            && (after.failure.None? ==>
                  forall r :: r in requirements ==> Led(r.prefix, after.file.lines) && (r.exclusive ==> r.line in after.file.lines))
  {
    if requirements != [] {
      var r0 := requirements[0];
      var first := Require(r0, file);
      if first.failure.None? {
        TerminatedRunMeetsAll(requirements[1..], first.file);
        var after := RequireAll(requirements[1..], first.file);
        if !Led(r0.prefix, file.lines) {
          assert first.file.lines[|file.lines|] == r0.line;
        }
        LedByExtension(r0.prefix, first.file.lines, after.file.lines);
      }
    }
  }

  lemma LedByExtension(prefix: string, lines: seq<string>, longer: seq<string>)
    requires lines <= longer
    ensures Led(prefix, lines) ==> Led(prefix, longer)
    ensures forall line :: line in lines ==> line in longer
  {
    if Led(prefix, lines) {
      var i :| 0 <= i < |lines| && StartsWith(lines[i], prefix);
      assert longer[i] == lines[i];
    }
  }

  /** Later requirements, those from `k` on, never meet the one at `i`. */
  lemma {:induction false} OthersDoNotLead(requirements: seq<Requirement>, i: nat, k: nat, file: ConfigFile)
    requires Independent(requirements) && i < k <= |requirements|
    requires file.Present? && file.terminated && !Led(requirements[i].prefix, file.lines)
    ensures RequireAll(requirements[k..], file).file.Present?
    ensures !Led(requirements[i].prefix, RequireAll(requirements[k..], file).file.lines)
    decreases |requirements| - k
  {
    if k < |requirements| {
      assert requirements[k..][1..] == requirements[k + 1..];
      OthersDoNotLead(requirements, i, k + 1, Require(requirements[k], file).file);
    }
  }

  /** On an unterminated file, the first line appended is lost to the next run. */
  lemma {:induction false} UnterminatedRunLeavesGap(requirements: seq<Requirement>, from: nat, file: ConfigFile)
    requires Independent(requirements) && from <= |requirements|
    requires file.WellFormed() && file.Present? && !file.terminated
    requires exists r :: r in requirements[from..] && !Led(r.prefix, file.lines)
    requires RequireAll(requirements[from..], file).failure.None?
    ensures var after := RequireAll(requirements[from..], file).file;
            && after.Present?
            && exists r :: r in requirements && !Led(r.prefix, after.lines)
    decreases |requirements| - from
  {
    var rest := requirements[from..];
    var r0 := requirements[from];
    assert rest[0] == r0 && rest[1..] == requirements[from + 1..];
    if Led(r0.prefix, file.lines) {
      UnterminatedRunLeavesGap(requirements, from + 1, file);
    } else {
      var next := file.Appended([r0.line]);
      GluedIsNotLed(file, r0);
      OthersDoNotLead(requirements, from, from + 1, next);
      assert r0 in requirements;
    }
  }

  lemma GluedIsNotLed(file: ConfigFile, requirement: Requirement)
    requires file.WellFormed() && file.Present? && !file.terminated
    requires StartsWith(requirement.line, requirement.prefix) && Unbordered(requirement.prefix)
    requires !Led(requirement.prefix, file.lines)
    ensures !Led(requirement.prefix, file.Appended([requirement.line]).lines)
  {
    var last := |file.lines| - 1;
    GluedLineIsNotLed(file.lines[last], requirement);
  }

  /**
   * After a successful run, a second run succeeds without changing the file exactly when the
   * file ended in a line separator, was empty, or lacked nothing.
   */
  lemma RequireAllTwice(requirements: seq<Requirement>, file: ConfigFile)
    requires Independent(requirements) && file.WellFormed() && file.Present?
    requires RequireAll(requirements, file).failure.None?
    ensures var once := RequireAll(requirements, file).file;
            RequireAll(requirements, once) == Outcome(once, None) <==>
            file.terminated || file.lines == [] || forall r :: r in requirements ==> Led(r.prefix, file.lines)
  {
    var once := RequireAll(requirements, file).file;
    if file.terminated || file.lines == [] {
      TerminatedRunMeetsAll(requirements, file);
      UnchangedMeansMet(requirements, once);
    } else if r :| r in requirements && !Led(r.prefix, file.lines) {
      assert requirements[0..] == requirements;
      UnterminatedRunLeavesGap(requirements, 0, file);
      UnchangedMeansMet(requirements, once);
    } else {
      AllLedMeansUnchanged(requirements, file);
    }
  }

  lemma {:induction false} AllLedMeansUnchanged(requirements: seq<Requirement>, file: ConfigFile)
    requires file.Present? && forall r :: r in requirements ==> Led(r.prefix, file.lines)
    ensures RequireAll(requirements, file).file == file
  {
    if requirements != [] {
      AllLedMeansUnchanged(requirements[1..], file);
    }
  }

  // ---------- The operator's own requirements are independent

  lemma NoInnerHyphen(s: string)
    requires forall i :: 1 <= i < |s| ==> s[i] != s[0]
    ensures Unbordered(s)
  {
    forall d | 1 <= d < |s|
      ensures s[d..] != s[..|s| - d]
    {
      assert s[d..][0] == s[d] && s[..|s| - d][0] == s[0];
    }
  }

  /** The only colon of an agent prefix is the one that ends "-javaagent:". */
  lemma AgentPrefixIsUnbordered(jar: string)
    requires ':' !in jar && jar != [] && jar[|jar| - 1] == 'r'
    ensures Unbordered(AgentPrefix(jar))
  {
    var p, option := AgentPrefix(jar), "-javaagent:";
    assert forall i :: |option| <= i < |p| ==> p[i] == jar[i - |option|];
    forall d | 1 <= d < |p|
      ensures p[d..] != p[..|p| - d]
    {
      if d + 10 < |p| {
        assert p[d..][10] == p[d + 10] != ':';
        assert p[..|p| - d][10] == option[10] == ':';
      } else {
        var last := |p| - 1 - d;
        assert p[d..][last] == p[|p| - 1] == 'r';
        assert p[..|p| - d][last] == option[last];
        assert 'r' !in option;
      }
    }
  }

  lemma AgentsAreIndependent(libPath: string, configPath: string)
    ensures var jmx, jolokia := JmxPrometheusAgent(libPath, configPath), JolokiaAgent(libPath, configPath);
            !StartsWith(jmx.line, jolokia.prefix) && !StartsWith(jolokia.line, jmx.prefix)
  {
    var jmx, jolokia := JmxPrometheusAgent(libPath, configPath), JolokiaAgent(libPath, configPath);
    var at := |"-javaagent:"| + |libPath| + 2;
    assert jmx.prefix[at] == jmx.line[at] == 'm';
    assert jolokia.prefix[at] == jolokia.line[at] == 'o';
  }

  lemma MemoryRequirementsAreIndependent(memoryBytes: int, cpuMillicores: int)
    ensures Independent(MemoryRequirements(memoryBytes, cpuMillicores))
  {
    NoInnerHyphen("-Xmx");
    NoInnerHyphen("-Xms");
    NoInnerHyphen("-Xmn");
    var memory := MemoryRequirements(memoryBytes, cpuMillicores);
    assert forall k :: 0 <= k < 3 ==> memory[k].prefix[3] == memory[k].line[3];
  }

  lemma IndependentConcat(a: seq<Requirement>, b: seq<Requirement>, ca: char, cb: char)
    requires Independent(a) && Independent(b) && ca != cb
    requires forall r :: r in a ==> |r.prefix| > 1 && r.prefix[1] == ca
    requires forall r :: r in b ==> |r.prefix| > 1 && r.prefix[1] == cb
    ensures Independent(a + b)
  {
    forall i, j | 0 <= i < |a + b| && 0 <= j < |a + b| && i != j
      ensures !StartsWith((a + b)[j].line, (a + b)[i].prefix)
    {
      assert (a + b)[i] in a || (a + b)[i] in b;
      assert (a + b)[j].line[1] == (a + b)[j].prefix[1];
    }
  }

  lemma AgentIsWellBehaved(requirement: Requirement, jar: string, options: string)
    requires ':' !in jar && jar != [] && jar[|jar| - 1] == 'r'
    requires requirement.prefix == AgentPrefix(jar) && requirement.line == AgentPrefix(jar) + options
    ensures StartsWith(requirement.line, requirement.prefix) && Unbordered(requirement.prefix)
    ensures |requirement.prefix| > 1 && requirement.prefix[1] == 'j'
  {
    AgentPrefixIsUnbordered(jar);
  }

  ghost predicate IsWellBehaved(r: Requirement) {
    StartsWith(r.line, r.prefix) && Unbordered(r.prefix) && |r.prefix| > 1 && r.prefix[1] == 'j'
  }

  lemma JmxAgentIsWellBehaved(libPath: string, configPath: string)
    requires ':' !in libPath
    ensures IsWellBehaved(JmxPrometheusAgent(libPath, configPath))
  {
    AgentIsWellBehaved(JmxPrometheusAgent(libPath, configPath), libPath + "/jmx_prometheus_javaagent.jar",
                       "=7070:" + configPath + "/prometheus.yml");
  }

  lemma JolokiaAgentIsWellBehaved(libPath: string, configPath: string)
    requires ':' !in libPath
    ensures IsWellBehaved(JolokiaAgent(libPath, configPath))
  {
    AgentIsWellBehaved(JolokiaAgent(libPath, configPath), libPath + "/jolokia-jvm-agent.jar",
                       "=port=7777,host=*,policyLocation=file://" + configPath + "/jolokia-policy.xml");
  }

  lemma AgentPairIsIndependent(libPath: string, configPath: string)
    requires ':' !in libPath
    ensures var agents := [JmxPrometheusAgent(libPath, configPath), JolokiaAgent(libPath, configPath)];
            Independent(agents) && forall r :: r in agents ==> |r.prefix| > 1 && r.prefix[1] == 'j'
  {
    JmxAgentIsWellBehaved(libPath, configPath);
    JolokiaAgentIsWellBehaved(libPath, configPath);
    AgentsAreIndependent(libPath, configPath);
    PairIsIndependent(JmxPrometheusAgent(libPath, configPath), JolokiaAgent(libPath, configPath));
  }

  lemma PairIsIndependent(a: Requirement, b: Requirement)
    requires IsWellBehaved(a) && IsWellBehaved(b)
    requires !StartsWith(a.line, b.prefix) && !StartsWith(b.line, a.prefix)
    ensures Independent([a, b]) && forall r :: r in [a, b] ==> |r.prefix| > 1 && r.prefix[1] == 'j'
  {
  }

  lemma OwnRequirementsAreIndependent(libPath: string, configPath: string, memoryBytes: int, cpuMillicores: int)
    requires ':' !in libPath
    ensures Independent(AllRequirements(libPath, configPath, memoryBytes, cpuMillicores))
  {
    AgentPairIsIndependent(libPath, configPath);
    MemoryRequirementsAreIndependent(memoryBytes, cpuMillicores);
    IndependentConcat([JmxPrometheusAgent(libPath, configPath), JolokiaAgent(libPath, configPath)],
                      MemoryRequirements(memoryBytes, cpuMillicores), 'j', 'X');
  }

  /** Appending a memory line, even glued, meets no other memory requirement. */
  lemma MemoryLinesDoNotMeetEachOther(prefix: string, line: string, file: ConfigFile)
    requires file.WellFormed() && file.Present?
    requires |prefix| == 4 && prefix[..3] == "-Xm" && prefix[3] != '-'
    requires |line| >= 4 && line[..3] == "-Xm" && line[3] != prefix[3]
    ensures Led(prefix, file.Appended([line]).lines) == Led(prefix, file.lines)
    ensures file.Appended([line]).terminated
  {
    var after := file.Appended([line]);
    if file.terminated || file.lines == [] {
      assert !StartsWith(line, prefix);
      LedByExtension(prefix, file.lines, after.lines);
    } else {
      var last := |file.lines| - 1;
      var l := file.lines[last];
      assert StartsWith(l + line, prefix) == StartsWith(l, prefix) by {
        assert prefix[0] == '-' == line[0] && prefix[1] == 'X' && prefix[2] == 'm';
        if |l| >= 4 {
          assert (l + line)[..4] == l[..4];
        } else {
          assert (l + line)[|l|] == '-' != prefix[|l|];
        }
      }
      assert after.lines[last] == l + line;
      assert forall i :: 0 <= i < last ==> after.lines[i] == file.lines[i];
      assert Led(prefix, file.lines) ==> Led(prefix, after.lines) by {
        if i :| 0 <= i < |file.lines| && StartsWith(file.lines[i], prefix) {
          assert StartsWith(after.lines[i], prefix);
        }
      }
    }
  }

  /** Three requirements that do not meet each other can be checked first and added in one go. */
  lemma ThreeRequirementsInOneGo(rs: seq<Requirement>, file: ConfigFile)
    requires |rs| == 3 && file.Present? && forall r :: r in rs ==> !r.exclusive
    requires var f1 := Require(rs[0], file).file;
             && Led(rs[1].prefix, f1.lines) == Led(rs[1].prefix, file.lines)
             && Led(rs[2].prefix, Require(rs[1], f1).file.lines) == Led(rs[2].prefix, file.lines)
    ensures RequireAll(rs, file) == Outcome(file.Appended(Unmet(rs, file.lines)), None)
  {
    var f1 := Require(rs[0], file).file;
    var f2 := Require(rs[1], f1).file;
    assert rs[1..] == [rs[1], rs[2]] && rs[1..][1..] == [rs[2]] && rs[1..][1..][1..] == [];
    assert RequireAll([rs[2]], f2) == Outcome(Require(rs[2], f2).file, None);
    assert RequireAll([rs[1], rs[2]], f1) == RequireAll([rs[2]], f2);
    var a0 := if Led(rs[0].prefix, file.lines) then [] else [rs[0].line];
    var a1 := if Led(rs[1].prefix, file.lines) then [] else [rs[1].line];
    var a2 := if Led(rs[2].prefix, file.lines) then [] else [rs[2].line];
    AppendedTwice(file, a0, a1);
    AppendedTwice(file, a0 + a1, a2);
    assert Unmet([rs[2]], file.lines) == a2 + [] == a2;
    assert Unmet([rs[1], rs[2]], file.lines) == a1 + a2;
    assert Unmet(rs, file.lines) == a0 + (a1 + a2) == a0 + a1 + a2;
  }

  /** Checking all memory settings first and appending once is the same as setting them one by one. */
  lemma MemoryDefaultsOneByOne(memory: Option<string>, cpu: Option<string>, file: ConfigFile)
    requires file.WellFormed() && MemoryDefaults(memory, cpu, file).failure.None?
    ensures MemoryDefaults(memory, cpu, file) ==
            RequireAll(MemoryRequirements(Atoi(memory.value).value, NumberOr(cpu.value, 0)), file)
  {
    var rs := MemoryRequirements(Atoi(memory.value).value, NumberOr(cpu.value, 0));
    var f1 := Require(rs[0], file).file;
    MemoryLinesDoNotMeetEachOther(rs[1].prefix, rs[0].line, file);
    MemoryLinesDoNotMeetEachOther(rs[2].prefix, rs[0].line, file);
    MemoryLinesDoNotMeetEachOther(rs[2].prefix, rs[1].line, f1);
    ThreeRequirementsInOneGo(rs, file);
  }

  // ---------- The whole of jvm.options

  lemma {:induction false} RequireAllInTwoParts(a: seq<Requirement>, b: seq<Requirement>, file: ConfigFile)
    ensures RequireAll(a + b, file) ==
            var first := RequireAll(a, file);
            if first.failure.Some? then first else RequireAll(b, first.file)
  {
    if a == [] {
      assert a + b == b;
    } else {
      assert (a + b)[1..] == a[1..] + b;
      if Require(a[0], file).failure.None? {
        RequireAllInTwoParts(a[1..], b, Require(a[0], file).file);
      }
    }
  }

  lemma {:induction false} RequireAllKeepsWellFormed(requirements: seq<Requirement>, file: ConfigFile)
    requires file.WellFormed()
    ensures RequireAll(requirements, file).file.WellFormed()
  {
    if requirements != [] {
      RequireAllKeepsWellFormed(requirements[1..], Require(requirements[0], file).file);
    }
  }

  lemma ConfigureIsRequireAll(libPath: string, configPath: string, memory: Option<string>, cpu: Option<string>, file: ConfigFile)
    requires file.WellFormed() && Configure(libPath, configPath, memory, cpu, file).failure.None?
    ensures Configure(libPath, configPath, memory, cpu, file) ==
            RequireAll(AllRequirements(libPath, configPath, Atoi(memory.value).value, NumberOr(cpu.value, 0)), file)
  {
    var agents := [JmxPrometheusAgent(libPath, configPath), JolokiaAgent(libPath, configPath)];
    RequireAllKeepsWellFormed(agents, file);
    MemoryDefaultsOneByOne(memory, cpu, RequireAll(agents, file).file);
    RequireAllInTwoParts(agents, MemoryRequirements(Atoi(memory.value).value, NumberOr(cpu.value, 0)), file);
  }

  lemma MetFileIsLeftAlone(libPath: string, configPath: string, memory: Option<string>, cpu: Option<string>, file: ConfigFile)
    requires file.Present? && memory.Some? && Atoi(memory.value).Some? && cpu.Some?
    requires RequireAll(AllRequirements(libPath, configPath, Atoi(memory.value).value, NumberOr(cpu.value, 0)), file) ==
             Outcome(file, None)
    ensures Configure(libPath, configPath, memory, cpu, file) == Outcome(file, None)
  {
    hide FormatInt, HeapBytes, YoungGenerationMegabytes, JmxPrometheusAgent, JolokiaAgent;
    var agents := [JmxPrometheusAgent(libPath, configPath), JolokiaAgent(libPath, configPath)];
    var rs := MemoryRequirements(Atoi(memory.value).value, NumberOr(cpu.value, 0));
    UnchangedMeansMet(agents + rs, file);
    assert forall r :: r in agents ==> r in agents + rs;
    UnchangedMeansMet(agents, file);
    assert rs[0] in agents + rs && rs[1] in agents + rs && rs[2] in agents + rs;
    NothingUnmet(rs, file.lines);
  }

  lemma {:induction false} NothingUnmet(requirements: seq<Requirement>, lines: seq<string>)
    requires forall i :: 0 <= i < |requirements| ==> Led(requirements[i].prefix, lines)
    ensures Unmet(requirements, lines) == []
  {
    if requirements != [] {
      NothingUnmet(requirements[1..], lines);
    }
  }

  /**
   * After a successful run of all the additions, a second run neither fails nor changes the
   * file exactly when the file ended in a line separator, was empty, or lacked nothing.
   */
  lemma ConfigureTwice(libPath: string, configPath: string, memory: Option<string>, cpu: Option<string>, file: ConfigFile)
    requires ':' !in libPath
    requires file.WellFormed() && Configure(libPath, configPath, memory, cpu, file).failure.None?
    ensures var once := Configure(libPath, configPath, memory, cpu, file).file;
            && file.Present?
            && (Configure(libPath, configPath, memory, cpu, once) == Outcome(once, None) <==>
                file.terminated || file.lines == [] ||
                forall r :: r in AllRequirements(libPath, configPath, Atoi(memory.value).value, NumberOr(cpu.value, 0)) ==>
                  Led(r.prefix, file.lines))
  {
    var all := AllRequirements(libPath, configPath, Atoi(memory.value).value, NumberOr(cpu.value, 0));
    var once := Configure(libPath, configPath, memory, cpu, file).file;
    OwnRequirementsAreIndependent(libPath, configPath, Atoi(memory.value).value, NumberOr(cpu.value, 0));
    ConfigureIsRequireAll(libPath, configPath, memory, cpu, file);
    RequireAllKeepsWellFormed(all, file);
    RequireAllTwice(all, file);
    if RequireAll(all, once) == Outcome(once, None) {
      MetFileIsLeftAlone(libPath, configPath, memory, cpu, once);
    }
    if Configure(libPath, configPath, memory, cpu, once).failure.None? {
      ConfigureIsRequireAll(libPath, configPath, memory, cpu, once);
    }
  }

  /** A file that does not end in a line separator: the second run does not leave it alone. */
  lemma UnterminatedFileIsNotSettled(libPath: string, configPath: string, memory: string, cpu: string)
    requires ':' !in libPath && Atoi(memory).Some? && Atoi(cpu).Some?
    ensures var once := Configure(libPath, configPath, Some(memory), Some(cpu), Present(["-ea"], false));
            && once.failure.None?
            && Configure(libPath, configPath, Some(memory), Some(cpu), once.file) != Outcome(once.file, None)
  {
    var file := Present(["-ea"], false);
    var jmx, jolokia := JmxPrometheusAgent(libPath, configPath), JolokiaAgent(libPath, configPath);
    AgentPairIsIndependent(libPath, configPath);
    assert jmx in [jmx, jolokia] && jolokia in [jmx, jolokia];
    NoConflictWith(jmx, jolokia, file);
    ConfigureTwice(libPath, configPath, Some(memory), Some(cpu), file);
    assert AllRequirements(libPath, configPath, Atoi(memory).value, Atoi(cpu).value)[0] == jmx;
  }

  lemma NoConflictWith(a: Requirement, b: Requirement, file: ConfigFile)
    requires file == Present(["-ea"], false)
    requires forall r :: r in [a, b] ==> |r.prefix| > 1 && r.prefix[1] == 'j'
    ensures RequireAll([a, b], file).failure.None? && RequireAll([a, b], file).file.Present?
    ensures !Led(a.prefix, file.lines)
  {
    assert a in [a, b] && b in [a, b];
    assert file.lines[0][1] == 'e';
    var next := Require(a, file).file;
    assert next.lines == [file.lines[0] + a.line] && next.lines[0][1] == 'e';
    assert [a, b][1..] == [b] && [b][1..] == [];
    assert RequireAll([b], next) == Outcome(Require(b, next).file, None);
  }

  // ---------- The sizes

  /**
   * The heap is at least one byte, and the young generation takes at most a quarter of it
   * exactly when the pod has 8 MiB or more.
   */
  lemma YoungGenerationFitsHeap(memoryBytes: int, cpuMillicores: int)
    ensures HeapBytes(memoryBytes) >= 1
    ensures YoungGenerationMegabytes(memoryBytes, cpuMillicores) >= 1
    ensures 4 * BYTES_PER_MEGABYTE * YoungGenerationMegabytes(memoryBytes, cpuMillicores) <= HeapBytes(memoryBytes)
            <==> memoryBytes >= 8 * BYTES_PER_MEGABYTE
  {
  }
  /** The heap is the largest whole number of bytes that is at most half the pod's memory, or a single byte. */
  lemma HeapIsHalfTheMemory(memoryBytes: int, n: int)
    ensures n <= HeapBytes(memoryBytes) <==> n <= 1 || 2 * n <= memoryBytes
  {
  }

  /**
   * The young generation is the largest number of megabytes that is at most an eighth of the
   * pod's memory and, beyond 100, at most a tenth of its CPU in millicores; but at least one.
   */
  lemma YoungGenerationIsLargest(memoryBytes: int, cpuMillicores: int, n: int)
    ensures n <= YoungGenerationMegabytes(memoryBytes, cpuMillicores) <==>
            n <= 1 || (8 * 1048576 * n <= memoryBytes && (n <= 100 || 10 * n <= cpuMillicores))
  {
  }

  // ---------- What is added

  lemma UnmetIgnores(requirements: seq<Requirement>, lines: seq<string>, line: string)
    requires forall r :: r in requirements ==> !StartsWith(line, r.prefix)
    ensures Unmet(requirements, lines + [line]) == Unmet(requirements, lines)
  {
    if requirements != [] {
      var first, more := requirements[0], lines + [line];
      UnmetIgnores(requirements[1..], lines, line);
      LedByExtension(first.prefix, lines, more);
      if i :| 0 <= i < |more| && StartsWith(more[i], first.prefix) {
        assert i < |lines| && lines[i] == more[i];
      }
    }
  }

  lemma {:induction false} TerminatedRunAddsUnmet(requirements: seq<Requirement>, file: ConfigFile)
    requires Independent(requirements) && file.Present? && (file.terminated || file.lines == [])
    requires RequireAll(requirements, file).failure.None?
    ensures RequireAll(requirements, file).file.Present? && (file.terminated ==> RequireAll(requirements, file).file.terminated)
    ensures RequireAll(requirements, file).file.lines == file.lines + Unmet(requirements, file.lines)
  {
    if requirements != [] {
      var first, rest := requirements[0], requirements[1..];
      var next := Require(first, file).file;
      IndependentRest(requirements);
      TerminatedRunAddsUnmet(rest, next);
      if !Led(first.prefix, file.lines) {
        assert next.lines == file.lines + [first.line];
        UnmetIgnores(rest, file.lines, first.line);
        assert file.lines + [first.line] + Unmet(rest, file.lines) == file.lines + ([first.line] + Unmet(rest, file.lines));
      }
    }
  }

  lemma IndependentRest(requirements: seq<Requirement>)
    requires Independent(requirements) && requirements != []
    ensures Independent(requirements[1..])
    ensures forall r :: r in requirements[1..] ==> !StartsWith(requirements[0].line, r.prefix)
  {
    var rest := requirements[1..];
    forall i, j | 0 <= i < |rest| && 0 <= j < |rest| && i != j
      ensures !StartsWith(rest[j].line, rest[i].prefix)
    {
      assert rest[i] == requirements[i + 1] && rest[j] == requirements[j + 1];
    }
    forall r | r in rest
      ensures !StartsWith(requirements[0].line, r.prefix)
    {
      var i :| 0 <= i < |rest| && rest[i] == r;
      assert requirements[i + 1] == r;
    }
  }

  /** The option, unless some line of the file has it already. */
  function Option(name: string, value: string, lines: seq<string>): seq<string> {
    if exists i :: 0 <= i < |lines| && StartsWith(lines[i], name) then [] else [name + value]
  }

  predicate IsOption(r: Requirement, name: string, value: string) {
    r.prefix == name && r.line == name + value
  }

  function UnmetOne(r: Requirement, lines: seq<string>): seq<string> {
    if Led(r.prefix, lines) then [] else [r.line]
  }

  lemma UnmetIsOption(r: Requirement, name: string, value: string, lines: seq<string>)
    requires IsOption(r, name, value)
    ensures UnmetOne(r, lines) == Option(name, value, lines)
  {
  }

  lemma UnmetOfFive(rs: seq<Requirement>, lines: seq<string>)
    requires |rs| == 5
    ensures Unmet(rs, lines) == UnmetOne(rs[0], lines) + UnmetOne(rs[1], lines) + UnmetOne(rs[2], lines) + UnmetOne(rs[3], lines) + UnmetOne(rs[4], lines)
  {
    forall i | 0 <= i < 5
      ensures Unmet(rs[i..], lines) == UnmetOne(rs[i], lines) + Unmet(rs[i + 1..], lines)
    {
      assert rs[i..][1..] == rs[i + 1..];
    }
    assert rs[0..] == rs && rs[5..] == [];
  }

  lemma OwnRequirementTexts(libPath: string, configPath: string, m: int, c: int)
    ensures var all := AllRequirements(libPath, configPath, m, c);
            && |all| == 5
            && IsOption(all[0], "-javaagent:" + libPath + "/jmx_prometheus_javaagent.jar", "=7070:" + configPath + "/prometheus.yml")
            && IsOption(all[1], "-javaagent:" + libPath + "/jolokia-jvm-agent.jar",
                      "=port=7777,host=*,policyLocation=file://" + configPath + "/jolokia-policy.xml")
            && IsOption(all[2], "-Xmx", FormatInt(HeapBytes(m))) && IsOption(all[3], "-Xms", FormatInt(HeapBytes(m)))
            && IsOption(all[4], "-Xmn", FormatInt(YoungGenerationMegabytes(m, c)) + "M")
  {
    hide FormatInt, HeapBytes, YoungGenerationMegabytes;
    var jmx, jolokia := JmxPrometheusAgent(libPath, configPath), JolokiaAgent(libPath, configPath);
    assert jmx.line == jmx.prefix + ("=7070:" + configPath + "/prometheus.yml");
    assert jolokia.line == jolokia.prefix + ("=port=7777,host=*,policyLocation=file://" + configPath + "/jolokia-policy.xml");
    assert "-javaagent:" + libPath + "/jmx_prometheus_javaagent.jar" == jmx.prefix;
    assert "-javaagent:" + libPath + "/jolokia-jvm-agent.jar" == jolokia.prefix;
  }

  /** The options of the operator, in the order in which they are looked for. */
  function OwnOptions(libPath: string, configPath: string, heap: int, young: int, lines: seq<string>): seq<string> {
    Option("-javaagent:" + libPath + "/jmx_prometheus_javaagent.jar", "=7070:" + configPath + "/prometheus.yml", lines)
    + Option("-javaagent:" + libPath + "/jolokia-jvm-agent.jar",
             "=port=7777,host=*,policyLocation=file://" + configPath + "/jolokia-policy.xml", lines)
    + Option("-Xmx", FormatInt(heap), lines)
    + Option("-Xms", FormatInt(heap), lines)
    + Option("-Xmn", FormatInt(young) + "M", lines)
  }

  lemma UnmetAreOwnOptions(libPath: string, configPath: string, m: int, c: int, lines: seq<string>)
    ensures Unmet(AllRequirements(libPath, configPath, m, c), lines) ==
            OwnOptions(libPath, configPath, HeapBytes(m), YoungGenerationMegabytes(m, c), lines)
  {
    hide FormatInt, HeapBytes, YoungGenerationMegabytes, AllRequirements, Unmet, UnmetOne, Option;
    var all := AllRequirements(libPath, configPath, m, c);
    OwnRequirementTexts(libPath, configPath, m, c);
    UnmetOfFive(all, lines);
    UnmetIsOption(all[0], "-javaagent:" + libPath + "/jmx_prometheus_javaagent.jar", "=7070:" + configPath + "/prometheus.yml", lines);
    UnmetIsOption(all[1], "-javaagent:" + libPath + "/jolokia-jvm-agent.jar",
                  "=port=7777,host=*,policyLocation=file://" + configPath + "/jolokia-policy.xml", lines);
    UnmetIsOption(all[2], "-Xmx", FormatInt(HeapBytes(m)), lines);
    UnmetIsOption(all[3], "-Xms", FormatInt(HeapBytes(m)), lines);
    UnmetIsOption(all[4], "-Xmn", FormatInt(YoungGenerationMegabytes(m, c)) + "M", lines);
  }

  /** What a successful run appends to a file that ends in a line separator: the options that it lacked. */
  lemma ConfiguredOptions(libPath: string, configPath: string, memory: Option<string>, cpu: Option<string>, file: ConfigFile)
    requires ':' !in libPath && Configure(libPath, configPath, memory, cpu, file).failure.None?
    requires file.Present? && file.terminated
    ensures memory.Some? && Atoi(memory.value).Some? && cpu.Some?
    ensures var after, m, c := Configure(libPath, configPath, memory, cpu, file).file, Atoi(memory.value).value, NumberOr(cpu.value, 0);
            && after.Present? && after.terminated
            && after.lines == file.lines + OwnOptions(libPath, configPath, HeapBytes(m), YoungGenerationMegabytes(m, c), file.lines)
  {
    hide FormatInt, HeapBytes, YoungGenerationMegabytes, AllRequirements, OwnOptions, Independent, Unmet;
    var m, c := Atoi(memory.value).value, NumberOr(cpu.value, 0);
    var all := AllRequirements(libPath, configPath, m, c);
    ConfigureIsRequireAll(libPath, configPath, memory, cpu, file);
    OwnRequirementsAreIndependent(libPath, configPath, m, c);
    TerminatedRunAddsUnmet(all, file);
    UnmetAreOwnOptions(libPath, configPath, m, c, file.lines);
  }
  /** Appending a line of another option changes neither what leads nor what is there of this one. */
  lemma AppendedLineIsForeign(r: Requirement, line: string, file: ConfigFile)
    requires file.Present? && file.terminated && !StartsWith(line, r.prefix) && StartsWith(r.line, r.prefix)
    ensures var after := file.Appended([line]);
            && Led(r.prefix, after.lines) == Led(r.prefix, file.lines) && (r.line in after.lines <==> r.line in file.lines)
            && after.Present? && after.terminated
  {
    var after := file.Appended([line]);
    LedByExtension(r.prefix, file.lines, after.lines);
    if i :| 0 <= i < |after.lines| && StartsWith(after.lines[i], r.prefix) {
      assert i < |file.lines| && file.lines[i] == after.lines[i];
    }
  }

  /** An agent that is configured is configured as the operator wants it. */
  predicate HasNoConflict(name: string, value: string, lines: seq<string>) {
    (exists i :: 0 <= i < |lines| && StartsWith(lines[i], name)) ==> name + value in lines
  }

  /** Such a run succeeds exactly when no agent is configured otherwise and the pod's resources are given as numbers. */
  lemma OptionsSucceedExactlyWhen(libPath: string, configPath: string, memory: Option<string>, cpu: Option<string>, file: ConfigFile)
    requires ':' !in libPath && file.Present? && file.terminated
    ensures Configure(libPath, configPath, memory, cpu, file).failure.None? <==>
            && HasNoConflict("-javaagent:" + libPath + "/jmx_prometheus_javaagent.jar", "=7070:" + configPath + "/prometheus.yml", file.lines)
            && HasNoConflict("-javaagent:" + libPath + "/jolokia-jvm-agent.jar",
                             "=port=7777,host=*,policyLocation=file://" + configPath + "/jolokia-policy.xml", file.lines)
            && memory.Some? && Atoi(memory.value).Some? && cpu.Some?
            && (Atoi(cpu.value).Some? || exists i :: 0 <= i < |file.lines| && StartsWith(file.lines[i], "-Xmn"))
  {
    var jmx, jolokia := JmxPrometheusAgent(libPath, configPath), JolokiaAgent(libPath, configPath);
    assert jmx.exclusive && jolokia.exclusive;
    hide FormatInt, HeapBytes, YoungGenerationMegabytes, JmxPrometheusAgent, JolokiaAgent, Atoi;
    var all := AllRequirements(libPath, configPath, 0, 0);
    OwnRequirementsAreIndependent(libPath, configPath, 0, 0);
    OwnRequirementTexts(libPath, configPath, 0, 0);
    assert all[0] == jmx && all[1] == jolokia && all[4].prefix == "-Xmn";
    assert jmx in all && jolokia in all && all[4] in all;
    AgentPairSucceeds(jmx, jolokia, all[4], file);
  }

  lemma AgentPairSucceeds(a: Requirement, b: Requirement, other: Requirement, file: ConfigFile)
    requires file.Present? && file.terminated && a.exclusive && b.exclusive
    requires StartsWith(b.line, b.prefix) && StartsWith(other.line, other.prefix)
    requires !StartsWith(a.line, b.prefix) && !StartsWith(a.line, other.prefix) && !StartsWith(b.line, other.prefix)
    ensures RequireAll([a, b], file).failure.None? <==>
            (Led(a.prefix, file.lines) ==> a.line in file.lines) && (Led(b.prefix, file.lines) ==> b.line in file.lines)
    ensures RequireAll([a, b], file).failure.None? ==>
              RequireAll([a, b], file).file.Present? && Led(other.prefix, RequireAll([a, b], file).file.lines) == Led(other.prefix, file.lines)
  {
    hide Led, StartsWith, Require;
    var next := Require(a, file).file;
    AgentIsRequired(a, file);
    AppendedLineIsForeign(b, a.line, file);
    AppendedLineIsForeign(other, a.line, file);
    AgentIsRequired(b, next);
    AppendedLineIsForeign(other, b.line, next);
    assert [a, b][1..] == [b] && [b][1..] == [];
    assert RequireAll([b], next).failure == Require(b, next).failure && RequireAll([b], next).file == Require(b, next).file;
  }

  lemma AgentIsRequired(agent: Requirement, file: ConfigFile)
    requires file.Present? && agent.exclusive
    ensures Require(agent, file).failure.None? <==> (Led(agent.prefix, file.lines) ==> agent.line in file.lines)
    ensures Require(agent, file).file == if Led(agent.prefix, file.lines) then file else file.Appended([agent.line])
  {
  }
}
