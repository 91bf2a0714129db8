/**
 * The bootstrapper itself: actions applied in a fixed order to the staged `cassandra.yaml`
 * and `jvm.options`, the first failure ending the run.
 */
module Bootstrapper {
  import opened Wrappers
  import opened Sequences
  import opened Text
  import opened ConfigFiles
  import opened CassandraYaml
  import JvmOptions

  /** The environment variables of the init container, each possibly unset. */
  datatype Environment = Environment(
    useDefaultSeedProvider: Option<string>,
    namespace: Option<string>,
    clusterName: Option<string>,
    listenAddress: Option<string>,
    memoryBytes: Option<string>,
    cpuMillicores: Option<string>)

  /** The target directories, and the YAML dump of the seed provider section for a cluster. */
  datatype Settings = Settings(libPath: string, configPath: string, seedSection: (string, string) -> seq<string>)

  datatype Files = Files(cassandraYaml: ConfigFile, jvmOptions: ConfigFile)

  datatype RunOutcome = RunOutcome(files: Files, failure: Option<Failure>)

  /** `Boolean.valueOf`: "true" in any letter case. */
  predicate IsTrue(text: Option<string>) {
    text.Some? && |text.value| == 4 &&
    text.value[0] in "tT" && text.value[1] in "rR" && text.value[2] in "uU" && text.value[3] in "eE"
  }

  // ---------- What each action does to its file

  function SeedProviderOutcome(env: Environment, settings: Settings, file: ConfigFile): Outcome {
    if IsTrue(env.useDefaultSeedProvider) then Outcome(file, None)
    else if env.namespace.None? then Outcome(file, Some(MissingVariable("CLUSTER_NAMESPACE")))
    else if env.clusterName.None? then Outcome(file, Some(MissingVariable("CLUSTER_NAME")))
    else if file.Absent? then Outcome(file, Some(UnreadableFile))
    else
      var section := settings.seedSection(env.namespace.value, env.clusterName.value);
      Outcome(file.Written(SeedRewrite(section, file.lines, false)), None)
  }

  function PropertyOutcome(property: Property, file: ConfigFile): Outcome {
    if file.Absent? then Outcome(file, Some(UnreadableFile))
    else Outcome(file.Written(SetProperty(property, file.lines)), None)
  }

  function Snitch(): Property {
    Property("endpoint_snitch", "GossipingPropertyFileSnitch")
  }

  /** The snitch is already set when a missing variable ends the action. */
  function ClusterPropertiesOutcome(env: Environment, file: ConfigFile): Outcome {
    var snitch := PropertyOutcome(Snitch(), file);
    if snitch.failure.Some? then snitch
    else if env.clusterName.None? then Outcome(snitch.file, Some(MissingVariable("CLUSTER_NAME")))
    else
      var name := PropertyOutcome(Property("cluster_name", env.clusterName.value), snitch.file);
      if name.failure.Some? then name
      else if env.listenAddress.None? then Outcome(name.file, Some(MissingVariable("NODE_LISTEN_ADDRESS")))
      else
        var listen := PropertyOutcome(Property("listen_address", env.listenAddress.value), name.file);
        if listen.failure.Some? then listen
        else PropertyOutcome(Property("rpc_address", env.listenAddress.value), listen.file)
  }

  function YamlOutcome(env: Environment, settings: Settings, file: ConfigFile): Outcome {
    var seed := SeedProviderOutcome(env, settings, file);
    if seed.failure.Some? then seed else ClusterPropertiesOutcome(env, seed.file)
  }

  function JvmOutcome(env: Environment, settings: Settings, file: ConfigFile): Outcome {
    JvmOptions.Configure(settings.libPath, settings.configPath, env.memoryBytes, env.cpuMillicores, file)
  }

  function ConfigureOutcome(env: Environment, settings: Settings, files: Files): RunOutcome {
    var yaml := YamlOutcome(env, settings, files.cassandraYaml);
    if yaml.failure.Some? then RunOutcome(files.(cassandraYaml := yaml.file), yaml.failure)
    else
      var jvm := JvmOutcome(env, settings, files.jvmOptions);
      RunOutcome(Files(yaml.file, jvm.file), jvm.failure)
  }

  // ---------- The actions

  class CassandraBootstrapper {
    var cassandraYaml: ConfigFile
    var jvmOptions: ConfigFile

    constructor (yaml: ConfigFile, jvm: ConfigFile)
      ensures cassandraYaml == yaml && jvmOptions == jvm
    {
      cassandraYaml, jvmOptions := yaml, jvm;
    }

    method ApplySeedProvider(env: Environment, settings: Settings) returns (failure: Option<Failure>)
      modifies this`cassandraYaml
      ensures Outcome(cassandraYaml, failure) == SeedProviderOutcome(env, settings, old(cassandraYaml))
    {
      if IsTrue(env.useDefaultSeedProvider) {
        return None;
      }
      if env.namespace.None? {
        return Some(MissingVariable("CLUSTER_NAMESPACE"));
      }
      if env.clusterName.None? {
        return Some(MissingVariable("CLUSTER_NAME"));
      }
      var section := settings.seedSection(env.namespace.value, env.clusterName.value);
      if cassandraYaml.Absent? {
        return Some(UnreadableFile);
      }
      var originalFile := cassandraYaml.lines;
      var modifiedFile: seq<string> := [];
      var replacingSeedProvider := false;
      for i := 0 to |originalFile|
        invariant cassandraYaml == old(cassandraYaml)
        invariant modifiedFile + SeedRewrite(section, originalFile[i..], replacingSeedProvider) ==
                  SeedRewrite(section, originalFile, false)
      {
        var line := originalFile[i];
        ghost var before, replacing := modifiedFile, replacingSeedProvider;
        ghost var rest := SeedRewrite(section, originalFile[i + 1..], ReplacingAfter(line, replacing));
        assert originalFile[i..][1..] == originalFile[i + 1..];
        if line == SEED_HEADER {
          replacingSeedProvider := true;
          modifiedFile := modifiedFile + section;
        }
        if !replacingSeedProvider || StartsWith(line, "#") {
          modifiedFile := modifiedFile + [line];
          replacingSeedProvider := false;
        }
        assert modifiedFile == before + Emitted(section, line, replacing);
        Associative(before, Emitted(section, line, replacing), rest);
      }
      assert originalFile[|originalFile|..] == [] && modifiedFile + [] == modifiedFile;
      assert modifiedFile == SeedRewrite(section, originalFile, false);
      cassandraYaml := cassandraYaml.Written(modifiedFile);
      return None;
    }

    method SetPropertyInCassandraYaml(property: Property) returns (failure: Option<Failure>)
      modifies this`cassandraYaml
      ensures Outcome(cassandraYaml, failure) == PropertyOutcome(property, old(cassandraYaml))
    {
      if cassandraYaml.Absent? {
        return Some(UnreadableFile);
      }
      var originalFile := cassandraYaml.lines;
      var modifiedFile: seq<string> := [];
      var propertyWasUpdated := false;
      SetPropertyLines(property, originalFile);
      for i := 0 to |originalFile|
        invariant modifiedFile == ReplaceLines([property], originalFile[..i])
        invariant propertyWasUpdated == Has(property, originalFile[..i])
      {
        var line := originalFile[i];
        assert originalFile[..i + 1] == originalFile[..i] + [line];
        ReplaceLinesAppend([property], originalFile[..i], [line]);
        assert Has(property, originalFile[..i + 1]) == (Has(property, originalFile[..i]) || StartsWith(line, property.Prefix())) by {
          assert originalFile[..i + 1][i] == line;
          LedByPrefixOf(property, originalFile, i);
        }
        if StartsWith(line, property.Prefix()) {
          modifiedFile := modifiedFile + [property.Line()];
          propertyWasUpdated := true;
        } else {
          modifiedFile := modifiedFile + [line];
        }
      }
      assert originalFile[..|originalFile|] == originalFile;
      if !propertyWasUpdated {
        modifiedFile := modifiedFile + [property.Line()];
      }
      assert modifiedFile == SetProperty(property, originalFile);
      cassandraYaml := cassandraYaml.Written(modifiedFile);
      return None;
    }

    method ApplyClusterProperties(env: Environment) returns (failure: Option<Failure>)
      modifies this`cassandraYaml
      ensures Outcome(cassandraYaml, failure) == ClusterPropertiesOutcome(env, old(cassandraYaml))
    {
      failure := SetPropertyInCassandraYaml(Snitch());
      if failure.Some? {
        return;
      }
      if env.clusterName.None? {
        return Some(MissingVariable("CLUSTER_NAME"));
      }
      failure := SetPropertyInCassandraYaml(Property("cluster_name", env.clusterName.value));
      if failure.Some? {
        return;
      }
      if env.listenAddress.None? {
        return Some(MissingVariable("NODE_LISTEN_ADDRESS"));
      }
      failure := SetPropertyInCassandraYaml(Property("listen_address", env.listenAddress.value));
      if failure.Some? {
        return;
      }
      failure := SetPropertyInCassandraYaml(Property("rpc_address", env.listenAddress.value));
    }

    method AddJavaAgentUnlessPresent(agent: JvmOptions.Requirement) returns (failure: Option<Failure>)
      requires agent.exclusive
      modifies this`jvmOptions
      ensures Outcome(jvmOptions, failure) == JvmOptions.Require(agent, old(jvmOptions))
    {
      if jvmOptions.Absent? {
        return Some(UnreadableFile);
      }
      if !JvmOptions.Led(agent.prefix, jvmOptions.lines) {
        jvmOptions := jvmOptions.Appended([agent.line]);
      } else if agent.line !in jvmOptions.lines {
        return Some(ConflictingAgent(agent.prefix));
      }
      return None;
    }

    method ApplyJavaAgents(settings: Settings) returns (failure: Option<Failure>)
      modifies this`jvmOptions
      ensures Outcome(jvmOptions, failure) ==
              JvmOptions.RequireAll([JvmOptions.JmxPrometheusAgent(settings.libPath, settings.configPath),
                                     JvmOptions.JolokiaAgent(settings.libPath, settings.configPath)], old(jvmOptions))
    {
      var jmx := JvmOptions.JmxPrometheusAgent(settings.libPath, settings.configPath);
      var jolokia := JvmOptions.JolokiaAgent(settings.libPath, settings.configPath);
      assert [jmx, jolokia][1..] == [jolokia] && [jolokia][1..] == [];
      failure := AddJavaAgentUnlessPresent(jmx);
      if failure.Some? {
        return;
      }
      assert JvmOptions.RequireAll([jolokia], jvmOptions) == JvmOptions.Require(jolokia, jvmOptions);
      failure := AddJavaAgentUnlessPresent(jolokia);
    }

    method ApplyJvmMemoryDefaults(env: Environment) returns (failure: Option<Failure>)
      modifies this`jvmOptions
      ensures Outcome(jvmOptions, failure) == JvmOptions.MemoryDefaults(env.memoryBytes, env.cpuMillicores, old(jvmOptions))
    {
      if jvmOptions.Absent? {
        return Some(UnreadableFile);
      }
      var lines := jvmOptions.lines;
      var linesToAdd: seq<string> := [];
      if env.memoryBytes.None? {
        return Some(MissingVariable("POD_MEMORY_BYTES"));
      }
      var memory := Atoi(env.memoryBytes.value);
      if memory.None? {
        return Some(NotANumber(env.memoryBytes.value));
      }
      var heap := FormatInt(JvmOptions.HeapBytes(memory.value));
      if !JvmOptions.Led("-Xmx", lines) {
        linesToAdd := linesToAdd + ["-Xmx" + heap];
      }
      if !JvmOptions.Led("-Xms", lines) {
        linesToAdd := linesToAdd + ["-Xms" + heap];
      }
      ghost var added := linesToAdd;
      if env.cpuMillicores.None? {
        return Some(MissingVariable("POD_CPU_MILLICORES"));
      }
      if !JvmOptions.Led("-Xmn", lines) {
        var cpu := Atoi(env.cpuMillicores.value);
        if cpu.None? {
          return Some(NotANumber(env.cpuMillicores.value));
        }
        var young := JvmOptions.YoungGenerationMegabytes(memory.value, cpu.value);
        linesToAdd := linesToAdd + ["-Xmn" + FormatInt(young) + "M"];
      }
      ghost var rs := JvmOptions.MemoryRequirements(memory.value, JvmOptions.NumberOr(env.cpuMillicores.value, 0));
      UnmetOfThree(rs, lines);
      assert linesToAdd == JvmOptions.Unmet(rs, lines);
      jvmOptions := jvmOptions.Appended(linesToAdd);
      return None;
    }

    method Configure(env: Environment, settings: Settings) returns (failure: Option<Failure>)
      modifies this
      ensures RunOutcome(Files(cassandraYaml, jvmOptions), failure) ==
              ConfigureOutcome(env, settings, old(Files(cassandraYaml, jvmOptions)))
    {
      failure := ApplySeedProvider(env, settings);
      if failure.Some? {
        return;
      }
      failure := ApplyClusterProperties(env);
      if failure.Some? {
        return;
      }
      failure := ApplyJavaAgents(settings);
      if failure.Some? {
        return;
      }
      failure := ApplyJvmMemoryDefaults(env);
    }
  }

  lemma LedByPrefixOf(property: Property, file: seq<string>, i: nat)
    requires i < |file|
    ensures Has(property, file[..i + 1]) ==> Has(property, file[..i]) || StartsWith(file[i], property.Prefix())
    ensures Has(property, file[..i]) ==> Has(property, file[..i + 1])
  {
    var shorter, longer := file[..i], file[..i + 1];
    if Has(property, longer) {
      var k :| 0 <= k < |longer| && StartsWith(longer[k], property.Prefix());
      assert k == i || shorter[k] == longer[k];
    }
    if Has(property, shorter) {
      var k :| 0 <= k < |shorter| && StartsWith(shorter[k], property.Prefix());
      assert longer[k] == shorter[k];
    }
  }

  lemma UnmetOfThree(rs: seq<JvmOptions.Requirement>, lines: seq<string>)
    requires |rs| == 3
    ensures JvmOptions.Unmet(rs, lines) ==
            (if JvmOptions.Led(rs[0].prefix, lines) then [] else [rs[0].line]) +
            (if JvmOptions.Led(rs[1].prefix, lines) then [] else [rs[1].line]) +
            (if JvmOptions.Led(rs[2].prefix, lines) then [] else [rs[2].line])
  {
    assert rs[1..] == [rs[1], rs[2]] && rs[1..][1..] == [rs[2]] && rs[1..][1..][1..] == [];
    assert JvmOptions.Unmet([rs[2]], lines) == if JvmOptions.Led(rs[2].prefix, lines) then [] else [rs[2].line];
  }

  // ---------- Running it twice

  function ClusterProperties(clusterName: string, listenAddress: string): seq<Property> {
    [Snitch(), Property("cluster_name", clusterName),
     Property("listen_address", listenAddress), Property("rpc_address", listenAddress)]
  }

  lemma ClusterPropertiesAreIndependent(clusterName: string, listenAddress: string)
    ensures Independent(ClusterProperties(clusterName, listenAddress))
  {
    var ps := ClusterProperties(clusterName, listenAddress);
    assert ps[0].Prefix()[0] == 'e' && ps[1].Prefix()[0] == 'c' && ps[2].Prefix()[0] == 'l' && ps[3].Prefix()[0] == 'r';
    assert forall i :: 0 <= i < 4 ==> ps[i].Line()[0] == ps[i].Prefix()[0];
  }

  lemma FourProperties(properties: seq<Property>, lines: seq<string>)
    requires |properties| == 4
    ensures SetProperties(properties, lines) ==
            SetProperty(properties[3], SetProperty(properties[2], SetProperty(properties[1], SetProperty(properties[0], lines))))
  {
    var ps := properties;
    assert ps[1..] == [ps[1], ps[2], ps[3]] && ps[1..][1..] == [ps[2], ps[3]] && ps[1..][1..][1..] == [ps[3]];
    assert [ps[3]][1..] == [];
    var f := SetProperty(ps[1], SetProperty(ps[0], lines));
    var g := SetProperty(ps[2], f);
    assert SetProperties([ps[3]], g) == SetProperties([], SetProperty(ps[3], g));
    assert SetProperties([ps[2], ps[3]], f) == SetProperty(ps[3], SetProperty(ps[2], f));
  }

  lemma PropertyIsWritten(property: Property, file: ConfigFile)
    requires file.Present?
    ensures PropertyOutcome(property, file) == Outcome(Present(SetProperty(property, file.lines), true), None)
  {
    SetPropertyLines(property, file.lines);
    assert SetProperty(property, file.lines) != [];
  }

  lemma ClusterPropertiesSetFour(env: Environment, file: ConfigFile)
    requires file.Present? && env.clusterName.Some? && env.listenAddress.Some?
    ensures ClusterPropertiesOutcome(env, file) ==
            Outcome(Present(SetProperties(ClusterProperties(env.clusterName.value, env.listenAddress.value), file.lines), true), None)
  {
    var ps := ClusterProperties(env.clusterName.value, env.listenAddress.value);
    FourProperties(ps, file.lines);
    PropertyIsWritten(ps[0], file);
    PropertyIsWritten(ps[1], PropertyOutcome(ps[0], file).file);
    PropertyIsWritten(ps[2], PropertyOutcome(ps[1], PropertyOutcome(ps[0], file).file).file);
    PropertyIsWritten(ps[3], PropertyOutcome(ps[2], PropertyOutcome(ps[1], PropertyOutcome(ps[0], file).file).file).file);
  }

  /** What the settings promise about the dumped section of this environment's cluster. */
  ghost predicate SectionIsWellFormed(env: Environment, settings: Settings) {
    env.namespace.Some? && env.clusterName.Some? && env.listenAddress.Some? ==>
      WellFormedSection(settings.seedSection(env.namespace.value, env.clusterName.value),
                        ClusterProperties(env.clusterName.value, env.listenAddress.value))
  }

  /** A configured `cassandra.yaml` is left as it is, with either seed provider. */
  lemma YamlTwice(env: Environment, settings: Settings, file: ConfigFile)
    requires SectionIsWellFormed(env, settings)
    requires YamlOutcome(env, settings, file).failure.None?
    ensures var once := YamlOutcome(env, settings, file).file;
            YamlOutcome(env, settings, once) == Outcome(once, None)
  {
    var ps := ClusterProperties(env.clusterName.value, env.listenAddress.value);
    var seed := SeedProviderOutcome(env, settings, file).file;
    var once := YamlOutcome(env, settings, file).file;
    ClusterPropertiesAreIndependent(env.clusterName.value, env.listenAddress.value);
    ClusterPropertiesSetFour(env, seed);
    var again := SeedProviderOutcome(env, settings, once).file;
    ClusterPropertiesSetFour(env, again);
    if IsTrue(env.useDefaultSeedProvider) {
      SetPropertiesTwice(ps, file.lines);
    } else {
      var section := settings.seedSection(env.namespace.value, env.clusterName.value);
      RewrittenLines(section, file);
      RewrittenLines(section, once);
      ConfigureTwice(section, ps, file.lines);
    }
  }

  /** Not writing an empty file makes no difference: only an empty file is rewritten to nothing. */
  lemma RewrittenLines(section: seq<string>, file: ConfigFile)
    requires file.Present? && section != []
    ensures var written := file.Written(SeedRewrite(section, file.lines, false));
            written.Present? && written.lines == SeedRewrite(section, file.lines, false)
  {
    if file.lines != [] {
      assert Emitted(section, file.lines[0], false) != [];
    }
  }

  // ---------- What the configured file says

  function Lower(c: char): char {
    if 'A' <= c <= 'Z' then (c as int - 'A' as int + 'a' as int) as char else c
  }

  function LowerCase(text: string): string {
    seq(|text|, i requires 0 <= i < |text| => Lower(text[i]))
  }

  /** The variable is set, to "true" in any letter case. */
  predicate AsksForStockSeeds(env: Environment) {
    env.useDefaultSeedProvider.Some? && LowerCase(env.useDefaultSeedProvider.value) == "true"
  }

  lemma StockSeedsAreAskedFor(env: Environment)
    ensures AsksForStockSeeds(env) <==> IsTrue(env.useDefaultSeedProvider)
  {
    if env.useDefaultSeedProvider.Some? && |env.useDefaultSeedProvider.value| == 4 {
      var text := env.useDefaultSeedProvider.value;
      var lower := LowerCase(text);
      assert lower == [Lower(text[0]), Lower(text[1]), Lower(text[2]), Lower(text[3])];
      assert lower == "true" <==> Lower(text[0]) == 't' && Lower(text[1]) == 'r' && Lower(text[2]) == 'u' && Lower(text[3]) == 'e';
    }
  }

  /** What the run needs to get through with `cassandra.yaml`: a namespace only to look for seeds in. */
  lemma YamlSucceedsExactlyWhen(env: Environment, settings: Settings, file: ConfigFile)
    ensures YamlOutcome(env, settings, file).failure.None? <==>
            file.Present? && env.clusterName.Some? && env.listenAddress.Some? && (AsksForStockSeeds(env) || env.namespace.Some?)
  {
    StockSeedsAreAskedFor(env);
  }

  /**
   * The configured file has the snitch, the name of the cluster and the two addresses, with
   * nothing that says otherwise. Unless the stock seed provider is asked for, every seed
   * provider section is the one of this cluster and what is outside them is kept; if it is,
   * no line but those of the four properties changes.
   */
  ghost predicate YamlIsConfigured(env: Environment, settings: Settings, before: ConfigFile, after: ConfigFile, seeded: seq<string>) {
    && before.Present? && after.Present? && after.terminated && env.clusterName.Some? && env.listenAddress.Some?
    && (var wanted := [Property("endpoint_snitch", "GossipingPropertyFileSnitch"),
                       Property("cluster_name", env.clusterName.value),
                       Property("listen_address", env.listenAddress.value),
                       Property("rpc_address", env.listenAddress.value)];
        OnlySets(seeded, after.lines, wanted) && forall p :: p in wanted ==> Says(after.lines, p))
    && (if AsksForStockSeeds(env) then seeded == before.lines
        else env.namespace.Some? &&
             IsReseeded(before.lines, seeded, settings.seedSection(env.namespace.value, env.clusterName.value)))
  }

  lemma ConfiguredYaml(env: Environment, settings: Settings, file: ConfigFile) returns (seeded: seq<string>)
    requires SectionIsWellFormed(env, settings)
    requires YamlOutcome(env, settings, file).failure.None?
    ensures YamlIsConfigured(env, settings, file, YamlOutcome(env, settings, file).file, seeded)
  {
    hide OnlySets, Says, IsReseeded;
    StockSeedsAreAskedFor(env);
    var ps := ClusterProperties(env.clusterName.value, env.listenAddress.value);
    ClusterPropertiesAreIndependent(env.clusterName.value, env.listenAddress.value);
    ClusterPropertiesSetFour(env, SeedProviderOutcome(env, settings, file).file);
    if AsksForStockSeeds(env) {
      seeded := file.lines;
    } else {
      var section := settings.seedSection(env.namespace.value, env.clusterName.value);
      assert WellFormedSection(section, []);
      RewrittenLines(section, file);
      SeedRewriteReseeds(section, file.lines);
      seeded := SeedRewrite(section, file.lines, false);
    }
    SetPropertiesOnlySets(ps, seeded);
    SetPropertiesSays(ps, seeded);
  }

  /** A whole run leaves `cassandra.yaml` alone after configuring it. */
  lemma BootstrappedYaml(env: Environment, settings: Settings, files: Files) returns (seeded: seq<string>)
    requires SectionIsWellFormed(env, settings)
    requires ConfigureOutcome(env, settings, files).failure.None?
    ensures YamlIsConfigured(env, settings, files.cassandraYaml, ConfigureOutcome(env, settings, files).files.cassandraYaml, seeded)
  {
    seeded := ConfiguredYaml(env, settings, files.cassandraYaml);
  }

  /**
   * The bootstrapper as a whole: a second run in the same environment succeeds and changes
   * nothing exactly when `jvm.options` ended in a line separator, was empty, or lacked none
   * of the settings. `cassandra.yaml` never stands in the way.
   */
  lemma BootstrapTwice(env: Environment, settings: Settings, files: Files)
    requires SectionIsWellFormed(env, settings) && ':' !in settings.libPath
    requires files.jvmOptions.WellFormed() && ConfigureOutcome(env, settings, files).failure.None?
    ensures var once := ConfigureOutcome(env, settings, files).files;
            && files.jvmOptions.Present? && env.memoryBytes.Some? && Atoi(env.memoryBytes.value).Some? && env.cpuMillicores.Some?
            && (ConfigureOutcome(env, settings, once) == RunOutcome(once, None) <==>
                files.jvmOptions.terminated || files.jvmOptions.lines == [] ||
                forall r :: r in JvmOptions.AllRequirements(settings.libPath, settings.configPath,
                                                            Atoi(env.memoryBytes.value).value,
                                                            JvmOptions.NumberOr(env.cpuMillicores.value, 0)) ==>
                  JvmOptions.Led(r.prefix, files.jvmOptions.lines))
  {
    YamlTwice(env, settings, files.cassandraYaml);
    JvmOptions.ConfigureTwice(settings.libPath, settings.configPath, env.memoryBytes, env.cpuMillicores, files.jvmOptions);
  }
}
