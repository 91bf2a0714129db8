/**
 * Rewriting of `cassandra.yaml`, as functions on its lines: the seed provider section is
 * replaced, then a list of properties is set. The main result is that doing both again
 * changes nothing, for every file.
 */
module CassandraYaml {
  import opened Sequences
  import opened Text

  const SEED_HEADER := "seed_provider:"

  datatype Property = Property(name: string, value: string) {
    function Prefix(): string {
      name + ": "
    }

    function Line(): string {
      name + ": " + value
    }
  }

  predicate IsComment(line: string) {
    StartsWith(line, "#")
  }

  /** The file with each seed provider section, up to the next comment, replaced by `section`. */
  function SeedRewrite(section: seq<string>, file: seq<string>, replacing: bool): seq<string> {
    if file == [] then []
    else Emitted(section, file[0], replacing) + SeedRewrite(section, file[1..], ReplacingAfter(file[0], replacing))
  }

  /** What one line contributes, given whether lines are currently being dropped. */
  function Emitted(section: seq<string>, line: string, replacing: bool): seq<string> {
    (if line == SEED_HEADER then section else []) +
    (if !(replacing || line == SEED_HEADER) || IsComment(line) then [line] else [])
  }

  function ReplacingAfter(line: string, replacing: bool): bool {
    (replacing || line == SEED_HEADER) && !IsComment(line)
  }

  /** Whether lines are still being dropped at the end of the file. */
  function ReplacingAtEnd(file: seq<string>, replacing: bool): bool {
    if file == [] then replacing
    else ReplacingAtEnd(file[1..], ReplacingAfter(file[0], replacing))
  }

  function ReplaceLine(properties: seq<Property>, line: string): string {
    if properties == [] then line
    else if StartsWith(line, properties[0].Prefix()) then properties[0].Line()
    else ReplaceLine(properties[1..], line)
  }

  function ReplaceLines(properties: seq<Property>, file: seq<string>): (r: seq<string>)
    ensures |r| == |file|
  {
    seq(|file|, i requires 0 <= i < |file| => ReplaceLine(properties, file[i]))
  }

  predicate Has(property: Property, file: seq<string>) {
    exists i :: 0 <= i < |file| && StartsWith(file[i], property.Prefix())
  }

  /** The lines of the properties that no line of the file sets. */
  function MissingLines(properties: seq<Property>, file: seq<string>): seq<string> {
    if properties == [] then []
    else (if Has(properties[0], file) then [] else [properties[0].Line()]) + MissingLines(properties[1..], file)
  }

  function SetProperty(property: Property, file: seq<string>): seq<string> {
    ReplaceLines([property], file) + MissingLines([property], file)
  }

  /** The properties are set one after the other, each rewriting the whole file. */
  function SetProperties(properties: seq<Property>, file: seq<string>): seq<string> {
    if properties == [] then file
    else SetProperties(properties[1..], SetProperty(properties[0], file))
  }

  /** No property's line is a comment, and no property's prefix is a prefix of another's. */
  ghost predicate Independent(properties: seq<Property>) {
    && (forall p :: p in properties ==> !IsComment(p.Line()))
    && (forall i, j :: 0 <= i < |properties| && 0 <= j < |properties| && i != j ==>
          !StartsWith(properties[i].Prefix(), properties[j].Prefix()))
  }

  /** What the dumped section looks like: a header, then lines nothing else reacts to. */
  ghost predicate WellFormedSection(section: seq<string>, properties: seq<Property>) {
    && section != []
    && section[0] == SEED_HEADER
    && (forall i :: 1 <= i < |section| ==> section[i] != SEED_HEADER && !IsComment(section[i]))
    && (forall i, p :: 1 <= i < |section| && p in properties ==> !StartsWith(section[i], p.Prefix()))
  }

  // ---------- The seed provider pass

  lemma {:induction false} SeedRewriteAppend(section: seq<string>, a: seq<string>, b: seq<string>, replacing: bool)
    ensures SeedRewrite(section, a + b, replacing) ==
            SeedRewrite(section, a, replacing) + SeedRewrite(section, b, ReplacingAtEnd(a, replacing))
    ensures ReplacingAtEnd(a + b, replacing) == ReplacingAtEnd(b, ReplacingAtEnd(a, replacing))
  {
    if a == [] {
      assert a + b == b;
    } else {
      var next := ReplacingAfter(a[0], replacing);
      assert (a + b)[1..] == a[1..] + b;
      SeedRewriteAppend(section, a[1..], b, next);
      Associative(Emitted(section, a[0], replacing), SeedRewrite(section, a[1..], next),
                  SeedRewrite(section, b, ReplacingAtEnd(a, replacing)));
    }
  }

  /** Lines that are neither header nor comment are all kept, or all dropped. */
  lemma {:induction false} SeedRewritePlain(section: seq<string>, file: seq<string>, replacing: bool)
    requires forall i :: 0 <= i < |file| ==> file[i] != SEED_HEADER && !IsComment(file[i])
    ensures SeedRewrite(section, file, replacing) == if replacing then [] else file
    ensures ReplacingAtEnd(file, replacing) == replacing
  {
    if file != [] {
      SeedRewritePlain(section, file[1..], replacing);
    }
  }

  /**
   * One section: what precedes it is kept, its body goes, and the rest of the file, which
   * starts at a comment or at the next header, is treated in the same way.
   */
  lemma SeedRewriteReplacesSection(section: seq<string>, before: seq<string>, body: seq<string>, rest: seq<string>)
    requires SEED_HEADER !in before
    requires forall i :: 0 <= i < |body| ==> body[i] != SEED_HEADER && !IsComment(body[i])
    requires rest == [] || IsComment(rest[0]) || rest[0] == SEED_HEADER
    ensures SeedRewrite(section, before + [SEED_HEADER] + body + rest, false) ==
            before + section + SeedRewrite(section, rest, false)
  {
    var middle := [SEED_HEADER] + body;
    Associative(before, [SEED_HEADER], body);
    Associative(before, middle, rest);
    SeedRewriteAppend(section, before, middle + rest, false);
    SeedRewriteWithoutSection(section, before);
    SeedRewriteAppend(section, middle, rest, false);
    SeedRewriteOneSection(section, body);
    RestRestarts(section, rest);
    Associative(before, section, SeedRewrite(section, rest, false));
  }

  lemma SeedRewriteOneSection(section: seq<string>, body: seq<string>)
    requires forall i :: 0 <= i < |body| ==> body[i] != SEED_HEADER && !IsComment(body[i])
    ensures SeedRewrite(section, [SEED_HEADER] + body, false) == section
    ensures ReplacingAtEnd([SEED_HEADER] + body, false)
  {
    HeaderEmitsSection(section, false);
    assert ([SEED_HEADER] + body)[1..] == body;
    SeedRewritePlain(section, body, true);
  }

  lemma RestRestarts(section: seq<string>, rest: seq<string>)
    requires rest == [] || IsComment(rest[0]) || rest[0] == SEED_HEADER
    ensures SeedRewrite(section, rest, true) == SeedRewrite(section, rest, false)
  {
  }

  lemma {:induction false} SeedRewriteWithoutSection(section: seq<string>, file: seq<string>)
    requires SEED_HEADER !in file
    ensures SeedRewrite(section, file, false) == file
    ensures !ReplacingAtEnd(file, false)
  {
    if file != [] {
      SeedRewriteWithoutSection(section, file[1..]);
    }
  }

  lemma HeaderEmitsSection(section: seq<string>, replacing: bool)
    ensures Emitted(section, SEED_HEADER, replacing) == section
    ensures ReplacingAfter(SEED_HEADER, replacing)
  {
    assert SEED_HEADER[0] != '#';
  }

  lemma SeedRewriteSection(section: seq<string>, replacing: bool)
    requires WellFormedSection(section, [])
    ensures SeedRewrite(section, section, replacing) == section
    ensures ReplacingAtEnd(section, replacing)
  {
    HeaderEmitsSection(section, replacing);
    SeedRewritePlain(section, section[1..], true);
    assert section + [] == section;
  }

  lemma EmittedTwice(section: seq<string>, line: string, replacing: bool)
    requires WellFormedSection(section, [])
    ensures var head := Emitted(section, line, replacing);
            && SeedRewrite(section, head, replacing) == head
            && ReplacingAtEnd(head, replacing) == ReplacingAfter(line, replacing)
  {
    if line == SEED_HEADER {
      HeaderEmitsSection(section, replacing);
      SeedRewriteSection(section, replacing);
    } else if !replacing || IsComment(line) {
      assert Emitted(section, line, replacing) == [line];
      assert SeedRewrite(section, [line][1..], ReplacingAfter(line, replacing)) == [];
    } else {
      assert Emitted(section, line, replacing) == [];
    }
  }

  /** The seed provider pass alone is idempotent, and ends in the same mode both times. */
  lemma {:induction false} SeedRewriteTwice(section: seq<string>, file: seq<string>, replacing: bool)
    requires WellFormedSection(section, [])
    ensures var once := SeedRewrite(section, file, replacing);
            && SeedRewrite(section, once, replacing) == once
            && ReplacingAtEnd(once, replacing) == ReplacingAtEnd(file, replacing)
  {
    if file != [] {
      var next := ReplacingAfter(file[0], replacing);
      var head := Emitted(section, file[0], replacing);
      var rest := SeedRewrite(section, file[1..], next);
      SeedRewriteTwice(section, file[1..], next);
      EmittedTwice(section, file[0], replacing);
      SeedRewriteAppend(section, head, rest, replacing);
    }
  }

  // ---------- The seed provider pass, seen from its result

  /** Line `k` belongs to a section: a header stands there or before it, with no comment since. */
  ghost predicate InSection(file: seq<string>, k: int)
    requires k < |file|
  {
    exists j :: 0 <= j <= k && file[j] == "seed_provider:" && forall i :: j < i <= k ==> !StartsWith(file[i], "#")
  }

  /** The first `n` lines without the bodies of the sections; their headers stay. */
  ghost function Skeleton(file: seq<string>, n: nat): seq<string>
    requires n <= |file|
  {
    if n == 0 then []
    else Skeleton(file, n - 1) + if InSection(file, n - 1) && file[n - 1] != "seed_provider:" then [] else [file[n - 1]]
  }

  /** Every section has the given text, and nothing after it before the next comment or header. */
  ghost predicate SectionsAre(file: seq<string>, section: seq<string>) {
    forall k :: 0 <= k < |file| && file[k] == "seed_provider:" ==> SectionIsAt(file, k, section)
  }

  predicate SectionIsAt(file: seq<string>, k: nat, section: seq<string>) {
    var end := k + |section|;
    && end <= |file| && file[k..end] == section
    && (end == |file| || StartsWith(file[end], "#") || file[end] == "seed_provider:")
  }

  /** The sections have the given text, and what is outside them is the same. */
  ghost predicate IsReseeded(before: seq<string>, after: seq<string>, section: seq<string>) {
    SectionsAre(after, section) && Skeleton(after, |after|) == Skeleton(before, |before|)
  }

  lemma {:induction false} DroppingMeansInSection(file: seq<string>, n: nat)
    requires n <= |file|
    ensures ReplacingAtEnd(file[..n], false) <==> InSection(file, n - 1)
  {
    if n > 0 {
      var line := file[n - 1];
      DroppingMeansInSection(file, n - 1);
      assert file[..n] == file[..n - 1] + [line] && [line][1..] == [];
      SeedRewriteAppend([], file[..n - 1], [line], false);
      if line == SEED_HEADER {
        HeaderEmitsSection([], InSection(file, n - 2));
        assert InSection(file, n - 1);
      } else if InSection(file, n - 1) {
        var j :| 0 <= j <= n - 1 && file[j] == "seed_provider:" && forall i :: j < i <= n - 1 ==> !StartsWith(file[i], "#");
        assert j < n - 1 && InSection(file, n - 2);
      }
    }
  }

  /** Dropping the bodies is replacing each section by its header. */
  lemma {:induction false} SkeletonIsRewrite(file: seq<string>, n: nat)
    requires n <= |file|
    ensures Skeleton(file, n) == SeedRewrite([SEED_HEADER], file[..n], false)
  {
    if n > 0 {
      var line := file[n - 1];
      SkeletonIsRewrite(file, n - 1);
      DroppingMeansInSection(file, n - 1);
      DroppingMeansInSection(file, n);
      assert file[..n] == file[..n - 1] + [line] && [line][1..] == [];
      SeedRewriteAppend([SEED_HEADER], file[..n - 1], [line], false);
      var dropping := ReplacingAtEnd(file[..n - 1], false);
      assert SeedRewrite([SEED_HEADER], [line], dropping) == Emitted([SEED_HEADER], line, dropping) + [];
      assert ReplacingAtEnd(file[..n], false) == ReplacingAfter(line, dropping);
      HeaderEmitsSection([SEED_HEADER], dropping);
    }
  }

  lemma EmittedSkeleton(section: seq<string>, line: string, replacing: bool)
    requires WellFormedSection(section, [])
    ensures var head := Emitted(section, line, replacing);
            && SeedRewrite([SEED_HEADER], head, replacing) == Emitted([SEED_HEADER], line, replacing)
            && ReplacingAtEnd(head, replacing) == ReplacingAfter(line, replacing)
  {
    EmittedTwice(section, line, replacing);
    if line == SEED_HEADER {
      HeaderEmitsSection(section, replacing);
      HeaderEmitsSection([SEED_HEADER], replacing);
      SeedRewritePlain([SEED_HEADER], section[1..], true);
    } else if !replacing || IsComment(line) {
      assert Emitted(section, line, replacing) == [line] && [line][1..] == [];
    }
  }

  lemma {:induction false} RewriteKeepsSkeleton(section: seq<string>, file: seq<string>, replacing: bool)
    requires WellFormedSection(section, [])
    ensures SeedRewrite([SEED_HEADER], SeedRewrite(section, file, replacing), replacing) == SeedRewrite([SEED_HEADER], file, replacing)
  {
    if file != [] {
      var next := ReplacingAfter(file[0], replacing);
      RewriteKeepsSkeleton(section, file[1..], next);
      EmittedSkeleton(section, file[0], replacing);
      SeedRewriteAppend([SEED_HEADER], Emitted(section, file[0], replacing), SeedRewrite(section, file[1..], next), replacing);
    }
  }

  predicate StartsAtBoundary(rest: seq<string>) {
    rest == [] || StartsWith(rest[0], "#") || rest[0] == "seed_provider:"
  }

  /** While lines are dropped, the first one to appear again is a comment or a header. */
  lemma {:induction false} DroppingEndsAtBoundary(section: seq<string>, file: seq<string>)
    requires WellFormedSection(section, [])
    ensures StartsAtBoundary(SeedRewrite(section, file, true))
  {
    if file != [] {
      if file[0] != SEED_HEADER && !IsComment(file[0]) {
        DroppingEndsAtBoundary(section, file[1..]);
      }
    }
  }

  lemma SectionsAppend(section: seq<string>, head: seq<string>, rest: seq<string>)
    requires SectionsAre(rest, section)
    requires SEED_HEADER !in head || (head == section && WellFormedSection(section, []) && StartsAtBoundary(rest))
    ensures SectionsAre(head + rest, section)
  {
    var all := head + rest;
    forall k | 0 <= k < |all| && all[k] == "seed_provider:"
      ensures SectionIsAt(all, k, section)
    {
      if k >= |head| {
        var j := k - |head|;
        assert rest[j] == "seed_provider:" && SectionIsAt(rest, j, section);
        assert all[k..k + |section|] == rest[j..j + |section|];
      } else {
        assert k == 0 && all[..|section|] == section;
      }
    }
  }

  lemma {:induction false} RewrittenSections(section: seq<string>, file: seq<string>, replacing: bool)
    requires WellFormedSection(section, [])
    ensures SectionsAre(SeedRewrite(section, file, replacing), section)
  {
    if file != [] {
      var line, next := file[0], ReplacingAfter(file[0], replacing);
      var head := Emitted(section, line, replacing);
      RewrittenSections(section, file[1..], next);
      if line == SEED_HEADER {
        HeaderEmitsSection(section, replacing);
        DroppingEndsAtBoundary(section, file[1..]);
      } else {
        assert forall l :: l in head ==> l == line;
      }
      SectionsAppend(section, head, SeedRewrite(section, file[1..], next));
    }
  }

  /** The pass gives every section the wanted text, and keeps everything else in its place. */
  lemma SeedRewriteReseeds(section: seq<string>, file: seq<string>)
    requires WellFormedSection(section, [])
    ensures IsReseeded(file, SeedRewrite(section, file, false), section)
  {
    var after := SeedRewrite(section, file, false);
    RewrittenSections(section, file, false);
    RewriteKeepsSkeleton(section, file, false);
    SkeletonIsRewrite(file, |file|);
    SkeletonIsRewrite(after, |after|);
    assert file[..|file|] == file && after[..|after|] == after;
  }

  // ---------- The property pass

  /** A line is led by at most one of the properties, and setting it keeps it that way. */
  lemma LedByOne(properties: seq<Property>, line: string, i: nat, j: nat)
    requires Independent(properties) && i < |properties| && j < |properties| && i != j
    requires StartsWith(line, properties[i].Prefix())
    ensures !StartsWith(line, properties[j].Prefix())
  {
    var a, b := properties[i].Prefix(), properties[j].Prefix();
    assert !StartsWith(a, b) && !StartsWith(b, a);
  }

  lemma ReplaceLineLed(properties: seq<Property>, line: string, i: nat)
    requires Independent(properties) && i < |properties| && StartsWith(line, properties[i].Prefix())
    ensures ReplaceLine(properties, line) == properties[i].Line()
    decreases i
  {
    if i > 0 {
      LedByOne(properties, line, i, 0);
      ReplaceLineLed(properties[1..], line, i - 1);
    }
  }

  lemma {:induction false} ReplaceLineUnled(properties: seq<Property>, line: string)
    requires forall p :: p in properties ==> !StartsWith(line, p.Prefix())
    ensures ReplaceLine(properties, line) == line
  {
    if properties != [] {
      ReplaceLineUnled(properties[1..], line);
    }
  }

  /** Setting properties keeps the leading property of a line, and is idempotent on it. */
  lemma ReplaceLineKeepsLead(properties: seq<Property>, line: string)
    requires Independent(properties)
    ensures var replaced := ReplaceLine(properties, line);
            && (forall p :: p in properties ==> StartsWith(replaced, p.Prefix()) == StartsWith(line, p.Prefix()))
            && ReplaceLine(properties, replaced) == replaced
            && IsComment(replaced) == IsComment(line)
            && (replaced == SEED_HEADER <==> line == SEED_HEADER)
  {
    if i :| 0 <= i < |properties| && StartsWith(line, properties[i].Prefix()) {
      var led := properties[i];
      ReplaceLineLed(properties, line, i);
      ReplaceLineLed(properties, led.Line(), i);
      forall p | p in properties
        ensures StartsWith(led.Line(), p.Prefix()) == StartsWith(line, p.Prefix())
      {
        var j :| 0 <= j < |properties| && properties[j] == p;
        if i != j {
          LedByOne(properties, line, i, j);
          LedByOne(properties, led.Line(), i, j);
        }
      }
      PropertyLineIsPlain(led, line);
      PropertyLineIsPlain(led, led.Line());
    } else {
      ReplaceLineUnled(properties, line);
    }
  }

  lemma PropertyLineIsPlain(property: Property, line: string)
    requires StartsWith(line, property.Prefix())
    ensures line != SEED_HEADER
    ensures IsComment(line) == IsComment(property.Line())
  {
    assert ' ' == property.Prefix()[|property.name| + 1] == line[|property.name| + 1];
    assert ' ' !in SEED_HEADER;
    assert line[0] == property.Prefix()[0] == property.Line()[0];
  }

  lemma SetPropertyLines(property: Property, file: seq<string>)
    ensures forall line :: ReplaceLine([property], line) ==
              if StartsWith(line, property.Prefix()) then property.Line() else line
    ensures SetProperty(property, file) ==
            ReplaceLines([property], file) + if Has(property, file) then [] else [property.Line()]
  {
    assert [property][1..] == [];
    assert forall line :: ReplaceLine([], line) == line;
    assert MissingLines([property][1..], file) == [];
    assert MissingLines([property], file) == (if Has(property, file) then [] else [property.Line()]) + [];
  }

  /** Setting the properties one by one amounts to a single pass and one batch of new lines. */
  lemma {:induction false} SetPropertiesInOnePass(properties: seq<Property>, file: seq<string>)
    requires Independent(properties)
    ensures SetProperties(properties, file) == ReplaceLines(properties, file) + MissingLines(properties, file)
  {
    if properties == [] {
      assert ReplaceLines(properties, file) == file;
    } else {
      var first, others := properties[0], properties[1..];
      var added := if Has(first, file) then [] else [first.Line()];
      var next := SetProperty(first, file);
      SetPropertyLines(first, file);
      SetPropertiesInOnePass(others, next);
      forall i | 0 <= i < |file|
        ensures ReplaceLine(others, ReplaceLine([first], file[i])) == ReplaceLine(properties, file[i])
      {
        if StartsWith(file[i], first.Prefix()) {
          FirstIsNotReplacedAgain(properties);
        }
      }
      FirstIsNotReplacedAgain(properties);
      assert ReplaceLines(others, next) == ReplaceLines(properties, file) + added;
      SettingOneKeepsOthersMissing(properties, others, file);
      Associative(ReplaceLines(properties, file), added, MissingLines(others, file));
    }
  }

  lemma FirstIsNotReplacedAgain(properties: seq<Property>)
    requires Independent(properties) && properties != []
    ensures ReplaceLine(properties[1..], properties[0].Line()) == properties[0].Line()
    ensures forall p :: p in properties[1..] ==> !StartsWith(properties[0].Line(), p.Prefix())
  {
    forall p | p in properties[1..]
      ensures !StartsWith(properties[0].Line(), p.Prefix())
    {
      var j :| 1 <= j < |properties| && properties[j] == p;
      LedByOne(properties, properties[0].Line(), 0, j);
    }
    ReplaceLineUnled(properties[1..], properties[0].Line());
  }

  lemma {:induction false} SettingOneKeepsOthersMissing(properties: seq<Property>, others: seq<Property>, file: seq<string>)
    requires Independent(properties) && properties != []
    requires forall p :: p in others ==> p in properties[1..]
    ensures MissingLines(others, SetProperty(properties[0], file)) == MissingLines(others, file)
  {
    if others != [] {
      SettingOneKeepsOthersMissing(properties, others[1..], file);
      SettingOneKeepsOther(properties, others[0], file);
    }
  }

  lemma SettingOneKeepsOther(properties: seq<Property>, other: Property, file: seq<string>)
    requires Independent(properties) && properties != [] && other in properties[1..]
    ensures Has(other, SetProperty(properties[0], file)) == Has(other, file)
  {
    var next := SetProperty(properties[0], file);
    SetPropertyLines(properties[0], file);
    FirstIsNotReplacedAgain(properties);
    var j :| 1 <= j < |properties| && properties[j] == other;
    forall i | 0 <= i < |file|
      ensures StartsWith(next[i], other.Prefix()) == StartsWith(file[i], other.Prefix())
    {
      if StartsWith(file[i], properties[0].Prefix()) {
        LedByOne(properties, file[i], 0, j);
      }
    }
  }

  /** After the pass every property is set, and nothing in the file says otherwise. */
  lemma PropertiesAreSet(properties: seq<Property>, file: seq<string>, i: nat)
    requires Independent(properties) && i < |properties|
    ensures var result := SetProperties(properties, file);
            && properties[i].Line() in result
            && (forall line :: line in result && StartsWith(line, properties[i].Prefix()) ==> line == properties[i].Line())
  {
    var p := properties[i];
    var result := SetProperties(properties, file);
    var replaced := ReplaceLines(properties, file);
    SetPropertiesInOnePass(properties, file);
    MissingLinesAre(properties, file);
    if Has(p, file) {
      var k :| 0 <= k < |file| && StartsWith(file[k], p.Prefix());
      ReplaceLineLed(properties, file[k], i);
      assert result[k] == p.Line();
    }
    forall line | line in result && StartsWith(line, p.Prefix())
      ensures line == p.Line()
    {
      if line in replaced {
        var k :| 0 <= k < |file| && replaced[k] == line;
        ReplaceLineKeepsLead(properties, file[k]);
        ReplaceLineLed(properties, file[k], i);
      } else {
        assert line in MissingLines(properties, file);
        var j :| 0 <= j < |properties| && line == properties[j].Line();
        if i != j {
          LedByOne(properties, line, j, i);
        }
      }
    }
  }

  lemma {:induction false} MissingLinesAre(properties: seq<Property>, file: seq<string>)
    ensures forall line :: line in MissingLines(properties, file) <==>
              exists i :: 0 <= i < |properties| && !Has(properties[i], file) && line == properties[i].Line()
  {
    if properties != [] {
      var others := properties[1..];
      MissingLinesAre(others, file);
      forall line
        ensures line in MissingLines(properties, file) <==>
                exists i :: 0 <= i < |properties| && !Has(properties[i], file) && line == properties[i].Line()
      {
        if line in MissingLines(others, file) {
          var i :| 0 <= i < |others| && !Has(others[i], file) && line == others[i].Line();
          assert properties[i + 1] == others[i];
        }
        if i :| 0 <= i < |properties| && !Has(properties[i], file) && line == properties[i].Line() {
          if i > 0 {
            assert others[i - 1] == properties[i];
          }
        }
      }
    }
  }

  // ---------- The property pass, seen from its result

  predicate Sets(line: string, p: Property) {
    StartsWith(line, p.name + ": ")
  }

  /**
   * Each line of `before` that sets one of the properties has the wanted value, every other
   * line is kept, and a line is added at the end for each property that none sets.
   */
  ghost predicate OnlySets(before: seq<string>, after: seq<string>, properties: seq<Property>) {
    && |before| <= |after|
    && (forall i, p :: 0 <= i < |before| && p in properties && Sets(before[i], p) ==> after[i] == p.name + ": " + p.value)
    && (forall i :: 0 <= i < |before| && (forall p :: p in properties ==> !Sets(before[i], p)) ==> after[i] == before[i])
    && (forall i :: |before| <= i < |after| ==> IsAddition(after[i], before, properties))
    && Distinct(after[|before|..])
  }

  ghost predicate IsAddition(line: string, before: seq<string>, properties: seq<Property>) {
    exists p :: p in properties && line == p.name + ": " + p.value && forall l :: l in before ==> !Sets(l, p)
  }

  /** The file sets the property, and nothing in it says otherwise. */
  predicate Says(file: seq<string>, p: Property) {
    && p.name + ": " + p.value in file
    && (forall line :: line in file && Sets(line, p) ==> line == p.name + ": " + p.value)
  }

  lemma IndependentRest(properties: seq<Property>)
    requires Independent(properties) && properties != []
    ensures Independent(properties[1..])
  {
    var rest := properties[1..];
    forall i, j | 0 <= i < |rest| && 0 <= j < |rest| && i != j
      ensures !StartsWith(rest[i].Prefix(), rest[j].Prefix())
    {
      assert rest[i] == properties[i + 1] && rest[j] == properties[j + 1];
    }
  }

  predicate Distinct(lines: seq<string>) {
    forall i, j :: 0 <= i < j < |lines| ==> lines[i] != lines[j]
  }

  lemma DistinctFromFirst(first: string, others: seq<string>)
    requires Distinct(others) && first !in others
    ensures Distinct([first] + others)
  {
    var lines := [first] + others;
    assert forall j :: 1 <= j < |lines| ==> lines[j] == others[j - 1];
  }

  lemma {:induction false} MissingLinesAreDistinct(properties: seq<Property>, file: seq<string>)
    requires Independent(properties)
    ensures Distinct(MissingLines(properties, file))
  {
    if properties != [] {
      var first, rest := properties[0], properties[1..];
      var others := MissingLines(rest, file);
      IndependentRest(properties);
      MissingLinesAreDistinct(rest, file);
      if !Has(first, file) {
        MissingLinesAre(rest, file);
        if first.Line() in others {
          var k :| 0 <= k < |rest| && first.Line() == rest[k].Line();
          assert rest[k] == properties[k + 1];
          LedByOne(properties, first.Line(), k + 1, 0);
        }
        DistinctFromFirst(first.Line(), others);
      }
    }
  }

  lemma ReplacedLine(properties: seq<Property>, line: string)
    requires Independent(properties)
    ensures forall p :: p in properties && Sets(line, p) ==> ReplaceLine(properties, line) == p.name + ": " + p.value
    ensures (forall p :: p in properties ==> !Sets(line, p)) ==> ReplaceLine(properties, line) == line
  {
    forall p | p in properties && Sets(line, p)
      ensures ReplaceLine(properties, line) == p.Line()
    {
      var k :| 0 <= k < |properties| && properties[k] == p;
      ReplaceLineLed(properties, line, k);
    }
    if forall p :: p in properties ==> !Sets(line, p) {
      ReplaceLineUnled(properties, line);
    }
  }

  lemma MissingAreAdditions(properties: seq<Property>, file: seq<string>)
    ensures forall line :: line in MissingLines(properties, file) ==> IsAddition(line, file, properties)
  {
    MissingLinesAre(properties, file);
    forall line | line in MissingLines(properties, file)
      ensures IsAddition(line, file, properties)
    {
      var k :| 0 <= k < |properties| && !Has(properties[k], file) && line == properties[k].Line();
      var p := properties[k];
      assert p in properties;
      forall l | l in file
        ensures !Sets(l, p)
      {
        var i :| 0 <= i < |file| && file[i] == l;
        assert !StartsWith(file[i], p.Prefix());
      }
    }
  }

  lemma SetPropertiesOnlySets(properties: seq<Property>, file: seq<string>)
    requires Independent(properties)
    ensures OnlySets(file, SetProperties(properties, file), properties)
  {
    hide Independent, MissingLines, ReplaceLine, IsAddition, Sets, SetProperties;
    var after, missing := SetProperties(properties, file), MissingLines(properties, file);
    SetPropertiesInOnePass(properties, file);
    MissingAreAdditions(properties, file);
    MissingLinesAreDistinct(properties, file);
    forall i | 0 <= i < |file|
      ensures after[i] == ReplaceLine(properties, file[i])
      ensures forall p :: p in properties && Sets(file[i], p) ==> after[i] == p.name + ": " + p.value
      ensures (forall p :: p in properties ==> !Sets(file[i], p)) ==> after[i] == file[i]
    {
      ReplacedLine(properties, file[i]);
    }
    assert after[|file|..] == missing;
    forall i | |file| <= i < |after|
      ensures after[i] == missing[i - |file|] && IsAddition(after[i], file, properties)
    {
      assert missing[i - |file|] in missing;
    }
  }

  lemma SetPropertiesSays(properties: seq<Property>, file: seq<string>)
    requires Independent(properties)
    ensures forall p :: p in properties ==> Says(SetProperties(properties, file), p)
  {
    forall p | p in properties
      ensures Says(SetProperties(properties, file), p)
    {
      var i :| 0 <= i < |properties| && properties[i] == p;
      PropertiesAreSet(properties, file, i);
    }
  }

  // ---------- Both passes

  function Configure(section: seq<string>, properties: seq<Property>, file: seq<string>): seq<string> {
    SetProperties(properties, SeedRewrite(section, file, false))
  }

  lemma ReplaceLinesAppend(properties: seq<Property>, a: seq<string>, b: seq<string>)
    ensures ReplaceLines(properties, a + b) == ReplaceLines(properties, a) + ReplaceLines(properties, b)
  {
  }

  /** The two passes commute: replacing a property line neither starts nor ends a section. */
  lemma {:induction false} PassesCommute(section: seq<string>, properties: seq<Property>, file: seq<string>, replacing: bool)
    requires Independent(properties) && WellFormedSection(section, properties)
    ensures SeedRewrite(section, ReplaceLines(properties, file), replacing) ==
            ReplaceLines(properties, SeedRewrite(section, file, replacing))
    ensures ReplacingAtEnd(ReplaceLines(properties, file), replacing) == ReplacingAtEnd(file, replacing)
  {
    if file != [] {
      var line := file[0];
      var next := ReplacingAfter(line, replacing);
      var head := Emitted(section, line, replacing);
      PassesCommute(section, properties, file[1..], next);
      ReplaceLineKeepsLead(properties, line);
      assert ReplaceLines(properties, file)[1..] == ReplaceLines(properties, file[1..]);
      SectionIsUntouched(section, properties);
      ReplaceLinesAppend(properties, head, SeedRewrite(section, file[1..], next));
      assert ReplaceLines(properties, head) == Emitted(section, ReplaceLine(properties, line), replacing);
    }
  }

  lemma SectionIsUntouched(section: seq<string>, properties: seq<Property>)
    requires WellFormedSection(section, properties)
    ensures ReplaceLines(properties, section) == section
  {
    forall i | 0 <= i < |section|
      ensures ReplaceLine(properties, section[i]) == section[i]
    {
      forall p | p in properties
        ensures !StartsWith(section[i], p.Prefix())
      {
        if StartsWith(section[0], p.Prefix()) {
          PropertyLineIsPlain(p, section[0]);
        }
      }
      ReplaceLineUnled(properties, section[i]);
    }
  }

  /** A file the property pass has been over has nothing left to replace, and misses the same properties. */
  lemma ReplaceLinesTwice(properties: seq<Property>, file: seq<string>)
    requires Independent(properties)
    ensures ReplaceLines(properties, ReplaceLines(properties, file)) == ReplaceLines(properties, file)
    ensures MissingLines(properties, ReplaceLines(properties, file)) == MissingLines(properties, file)
  {
    var replaced := ReplaceLines(properties, file);
    forall i | 0 <= i < |file|
      ensures ReplaceLine(properties, replaced[i]) == replaced[i]
      ensures forall p :: p in properties ==> StartsWith(replaced[i], p.Prefix()) == StartsWith(file[i], p.Prefix())
    {
      ReplaceLineKeepsLead(properties, file[i]);
    }
    assert forall p :: p in properties ==> Has(p, replaced) == Has(p, file);
    SameMissing(properties, replaced, file);
  }

  lemma {:induction false} SameMissing(properties: seq<Property>, a: seq<string>, b: seq<string>)
    requires forall p :: p in properties ==> Has(p, a) == Has(p, b)
    ensures MissingLines(properties, a) == MissingLines(properties, b)
  {
    if properties != [] {
      SameMissing(properties[1..], a, b);
    }
  }

  /** Adding the missing lines leaves nothing to replace in them and nothing missing. */
  lemma NothingMissingAfterwards(properties: seq<Property>, file: seq<string>)
    requires Independent(properties)
    ensures var missing := MissingLines(properties, file);
            && ReplaceLines(properties, missing) == missing
            && MissingLines(properties, file + missing) == []
            && (forall i :: 0 <= i < |missing| ==> missing[i] != SEED_HEADER && !IsComment(missing[i]))
  {
    var missing := MissingLines(properties, file);
    MissingLinesAre(properties, file);
    forall i | 0 <= i < |missing|
      ensures ReplaceLine(properties, missing[i]) == missing[i]
      ensures missing[i] != SEED_HEADER && !IsComment(missing[i])
    {
      assert missing[i] in missing;
      var j :| 0 <= j < |properties| && missing[i] == properties[j].Line();
      ReplaceLineLed(properties, missing[i], j);
      PropertyLineIsPlain(properties[j], missing[i]);
    }
    MissingLinesAre(properties, file + missing);
    forall j | 0 <= j < |properties|
      ensures Has(properties[j], file + missing)
    {
      if Has(properties[j], file) {
        var k :| 0 <= k < |file| && StartsWith(file[k], properties[j].Prefix());
        assert (file + missing)[k] == file[k];
      } else {
        assert properties[j].Line() in missing;
        var k :| 0 <= k < |missing| && missing[k] == properties[j].Line();
        assert (file + missing)[|file| + k] == missing[k];
      }
    }
    if MissingLines(properties, file + missing) != [] {
      assert MissingLines(properties, file + missing)[0] in MissingLines(properties, file + missing);
      assert false;
    }
  }

  /**
   * Configuring a configured file changes nothing. When the file ends inside a seed provider
   * section, the second seed provider pass drops the lines the first run appended, and the
   * second property pass puts them back in the same order.
   */
  lemma ConfigureTwice(section: seq<string>, properties: seq<Property>, file: seq<string>)
    requires Independent(properties) && WellFormedSection(section, properties)
    ensures var once := Configure(section, properties, file);
            Configure(section, properties, once) == once
  {
    var y := SeedRewrite(section, file, false);
    var replaced, missing := ReplaceLines(properties, y), MissingLines(properties, y);
    var once := replaced + missing;
    SetPropertiesInOnePass(properties, y);
    assert WellFormedSection(section, []);
    SeedRewriteTwice(section, file, false);
    PassesCommute(section, properties, y, false);
    NothingMissingAfterwards(properties, y);
    ReplaceLinesTwice(properties, y);
    var dropping := ReplacingAtEnd(y, false);
    SeedRewriteAppend(section, replaced, missing, false);
    SeedRewritePlain(section, missing, dropping);
    if dropping {
      SetPropertiesInOnePass(properties, replaced);
      assert replaced + [] == replaced;
    } else {
      SetPropertiesTwice(properties, y);
    }
  }

  /** Without the seed provider pass: setting the properties again changes nothing. */
  lemma SetPropertiesTwice(properties: seq<Property>, file: seq<string>)
    requires Independent(properties)
    ensures var once := SetProperties(properties, file);
            SetProperties(properties, once) == once
  {
    var replaced, missing := ReplaceLines(properties, file), MissingLines(properties, file);
    SetPropertiesInOnePass(properties, file);
    SetPropertiesInOnePass(properties, replaced + missing);
    ReplaceLinesTwice(properties, file);
    NothingMissingAfterwards(properties, replaced);
    ReplaceLinesAppend(properties, replaced, missing);
  }
}
