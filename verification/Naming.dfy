/**
 * The names that tie a cluster to its ConfigMap, and the way back from a ConfigMap's
 * name to the cluster it configures.
 */
module Naming {
  import opened Wrappers
  import opened Text

  const CONFIG_SUFFIX := "-config"

  function QualifiedName(namespace: string, name: string): string {
    namespace + "." + name
  }

  function CustomConfigMapName(clusterName: string): string {
    clusterName + CONFIG_SUFFIX
  }

  /** `strings.Replace(s, "-config", "", -1)`: leftmost, non-overlapping. */
  function WithoutConfig(s: string): string {
    if |s| < |CONFIG_SUFFIX| then s
    else if StartsWith(s, CONFIG_SUFFIX) then WithoutConfig(s[|CONFIG_SUFFIX|..])
    else [s[0]] + WithoutConfig(s[1..])
  }

  function QualifiedClusterNameFor(namespace: string, configMapName: string): Result<string, string> {
    if !EndsWith(configMapName, CONFIG_SUFFIX)
    then Failure("configMap name does not follow the naming convention for a cluster")
    else Success(QualifiedName(namespace, WithoutConfig(configMapName)))
  }

  /** A ConfigMap is that of some cluster exactly when its name ends in "-config". */
  lemma NamedByConvention(namespace: string, configMapName: string)
    ensures QualifiedClusterNameFor(namespace, configMapName).Success? <==> exists name :: configMapName == name + "-config"
    ensures forall name :: configMapName == name + "-config" ==>
              QualifiedClusterNameFor(namespace, configMapName) == Success(namespace + "." + WithoutConfig(name))
  {
    if EndsWith(configMapName, CONFIG_SUFFIX) {
      assert configMapName == configMapName[..|configMapName| - 7] + "-config";
    }
    forall name | configMapName == name + "-config"
      ensures EndsWith(configMapName, CONFIG_SUFFIX) && WithoutConfig(configMapName) == WithoutConfig(name)
    {
      SuffixIsRemoved(name);
    }
  }

  lemma FirstIsKept(s: string)
    requires s != [] && !StartsWith(s, CONFIG_SUFFIX)
    ensures WithoutConfig(s) == [s[0]] + WithoutConfig(s[1..])
  {
    if |s| < |CONFIG_SUFFIX| {
      assert WithoutConfig(s[1..]) == s[1..] && s == [s[0]] + s[1..];
    }
  }

  /** An occurrence at the front is not made of what comes from both sides: its only hyphen is its first character. */
  lemma NoStraddling(before: string, after: string)
    requires before != []
    ensures StartsWith(before + CONFIG_SUFFIX + after, CONFIG_SUFFIX) <==> StartsWith(before, CONFIG_SUFFIX)
  {
    var s, n := before + CONFIG_SUFFIX + after, |CONFIG_SUFFIX|;
    if StartsWith(s, CONFIG_SUFFIX) {
      assert s[|before|] == '-' && forall i :: 1 <= i < n ==> CONFIG_SUFFIX[i] != '-';
      assert |before| >= n && before[..n] == s[..n];
    }
    if StartsWith(before, CONFIG_SUFFIX) {
      assert s[..n] == before[..n];
    }
  }

  /** Each occurrence goes, and what is before and after it is treated by itself. */
  lemma {:induction false} OccurrenceIsRemoved(before: string, after: string)
    ensures WithoutConfig(before + "-config" + after) == WithoutConfig(before) + WithoutConfig(after)
    decreases |before|
  {
    var s, n := before + CONFIG_SUFFIX + after, |CONFIG_SUFFIX|;
    if before == [] {
      assert s[..n] == CONFIG_SUFFIX && s[n..] == after;
    } else {
      NoStraddling(before, after);
      if StartsWith(before, CONFIG_SUFFIX) {
        assert s[n..] == before[n..] + CONFIG_SUFFIX + after;
        OccurrenceIsRemoved(before[n..], after);
      } else {
        assert s[1..] == before[1..] + CONFIG_SUFFIX + after;
        OccurrenceIsRemoved(before[1..], after);
        FirstIsKept(s);
        FirstIsKept(before);
      }
    }
  }

  lemma SuffixIsRemoved(name: string)
    ensures WithoutConfig(name + CONFIG_SUFFIX) == WithoutConfig(name)
  {
    OccurrenceIsRemoved(name, "");
    assert name + CONFIG_SUFFIX + "" == name + CONFIG_SUFFIX;
  }

  /** Replacement leaves a text alone exactly when there is nothing to replace. */
  lemma {:induction false} NothingToRemove(s: string)
    ensures |WithoutConfig(s)| <= |s|
    ensures WithoutConfig(s) == s <==> !Contains(s, CONFIG_SUFFIX)
  {
    if |s| < |CONFIG_SUFFIX| {
    } else if StartsWith(s, CONFIG_SUFFIX) {
      assert OccursAt(s, CONFIG_SUFFIX, 0);
      NothingToRemove(s[|CONFIG_SUFFIX|..]);
    } else {
      NothingToRemove(s[1..]);
      if Contains(s, CONFIG_SUFFIX) {
        var i :| 0 <= i <= |s| && OccursAt(s, CONFIG_SUFFIX, i);
        assert OccursAt(s[1..], CONFIG_SUFFIX, i - 1);
      }
      if Contains(s[1..], CONFIG_SUFFIX) {
        var i :| 0 <= i <= |s[1..]| && OccursAt(s[1..], CONFIG_SUFFIX, i);
        assert OccursAt(s, CONFIG_SUFFIX, i + 1);
      }
    }
  }

  /**
   * A cluster's ConfigMap leads back to that cluster exactly when the cluster's own name
   * does not contain "-config".
   */
  lemma ConfigMapNameRoundTrip(namespace: string, name: string)
    ensures QualifiedClusterNameFor(namespace, CustomConfigMapName(name)) == Success(QualifiedName(namespace, name))
            <==> !Contains(name, CONFIG_SUFFIX)
  {
    SuffixIsRemoved(name);
    NothingToRemove(name);
    var back := QualifiedName(namespace, WithoutConfig(name));
    assert back[|namespace| + 1..] == WithoutConfig(name);
    assert QualifiedName(namespace, name)[|namespace| + 1..] == name;
  }

  /** What goes wrong otherwise: the ConfigMap of one cluster is taken for that of another. */
  lemma ConfigMapOfAnotherCluster(namespace: string)
    ensures QualifiedClusterNameFor(namespace, CustomConfigMapName("db-config-eu")) == Success(QualifiedName(namespace, "db-eu"))
  {
    var name := "db-config-eu";
    SuffixIsRemoved(name);
    assert name[1..][1..] == "-config-eu";
    assert "-config-eu"[|CONFIG_SUFFIX|..] == "-eu";
    assert WithoutConfig("-config-eu") == "-eu";
    assert WithoutConfig(name[1..]) == "b-eu";
    assert WithoutConfig(name) == "db-eu";
  }

  /** The name of one cluster can be moved into the namespace of the other, at a dot. */
  predicate DiffersByDot(ns1: string, name1: string, ns2: string, name2: string) {
    |ns1| < |ns2| && ns1 + "." <= ns2 && name1 == ns2[|ns1| + 1..] + "." + name2
  }

  /** Two clusters have the same qualified name exactly when they are the same, or a namespace contains a dot at which they differ. */
  lemma SameQualifiedNameExactlyWhen(ns1: string, name1: string, ns2: string, name2: string)
    ensures QualifiedName(ns1, name1) == QualifiedName(ns2, name2) <==>
            (ns1 == ns2 && name1 == name2) || DiffersByDot(ns1, name1, ns2, name2) || DiffersByDot(ns2, name2, ns1, name1)
  {
    if |ns1| == |ns2| {
      assert QualifiedName(ns1, name1)[..|ns1|] == ns1 && QualifiedName(ns2, name2)[..|ns2|] == ns2;
      assert QualifiedName(ns1, name1)[|ns1| + 1..] == name1 && QualifiedName(ns2, name2)[|ns2| + 1..] == name2;
    } else if |ns1| < |ns2| {
      LongerNamespace(ns1, name1, ns2, name2);
    } else {
      LongerNamespace(ns2, name2, ns1, name1);
    }
  }

  lemma LongerNamespace(ns1: string, name1: string, ns2: string, name2: string)
    requires |ns1| < |ns2|
    ensures QualifiedName(ns1, name1) == QualifiedName(ns2, name2) <==> DiffersByDot(ns1, name1, ns2, name2)
  {
    var q1, q2, n := QualifiedName(ns1, name1), QualifiedName(ns2, name2), |ns1|;
    if q1 == q2 {
      assert q1[..n + 1] == ns1 + "." && q2[..n + 1] == ns2[..n + 1];
      assert q1[n + 1..] == name1 && q2[n + 1..] == ns2[n + 1..] + "." + name2;
    }
    if DiffersByDot(ns1, name1, ns2, name2) {
      assert ns2 == (ns1 + ".") + ns2[n + 1..];
      assert q1 == (ns1 + ".") + name1 && q2 == (ns1 + ".") + (ns2[n + 1..] + "." + name2);
    }
  }

  lemma DifferenceNeedsDot(ns1: string, name1: string, ns2: string, name2: string)
    ensures DiffersByDot(ns1, name1, ns2, name2) ==> '.' in ns2
  {
    if DiffersByDot(ns1, name1, ns2, name2) {
      assert (ns1 + ".")[|ns1|] == ns2[|ns1|];
    }
  }

  /** So qualified names are unique, because a namespace (a DNS label) has no dot. */
  lemma QualifiedNameIsInjective(ns1: string, name1: string, ns2: string, name2: string)
    requires '.' !in ns1 && '.' !in ns2
    ensures QualifiedName(ns1, name1) == QualifiedName(ns2, name2) <==> ns1 == ns2 && name1 == name2
  {
    SameQualifiedNameExactlyWhen(ns1, name1, ns2, name2);
    DifferenceNeedsDot(ns1, name1, ns2, name2);
    DifferenceNeedsDot(ns2, name2, ns1, name1);
  }
}
