/** The problem package parser. An archive is its sequence of entries; opening the ZIP container is not modelled. */
module ZipPackage {
  import opened Basics
  import opened Ordering
  import opened PackageFields
  import opened Text
  import opened PathClean

  /** `content` is the text of the entry, or why it cannot be read (too large, or a broken stream). */
  datatype Entry = Entry(name: string, isDir: bool, content: Result<string, string>)

  datatype Manifest = Manifest(title: string, timeLimit: int, memoryLimit: int, problemType: string, judgeType: string)

  datatype Sample = Sample(name: string, input: string, output: string)

  datatype Package = Package(
    sourceFilename: string,
    manifest: Manifest,
    statements: map<string, string>,
    samples: seq<Sample>,
    testFiles: seq<string>)

  datatype FlatMetadata = FlatMetadata(title: string, timeLimit: int, memoryLimit: int, judgeType: string)

  datatype ParseError = UnsafeEntry(name: string) | Unreadable(reason: string) | BadManifest | StatementMissing

  /** `json.Unmarshal` into the manifest read so far. */
  type ManifestReader = (string, Manifest) -> Option<Manifest>

  const EMPTY_MANIFEST := Manifest("", 0, 0, "", "")

  // ---------- file names ----------

  datatype Kind = Input | Output | NoKind

  /** The name up to its last dot. */
  function BeforeExtension(name: string): (r: string)
    ensures r <= name
  {
    if name == "" then ""
    else if name[|name| - 1] == '.' then name[..|name| - 1]
    else if name[|name| - 1] == '/' then name
    else
      var rest := BeforeExtension(name[..|name| - 1]);
      if rest == name[..|name| - 1] then name else rest
  }

  /** The lower-cased name ends in these characters. */
  predicate Ends3(s: string, a: char, b: char, c: char) {
    var n := |s|;
    n >= 3 && LowerChar(s[n - 3]) == a && LowerChar(s[n - 2]) == b && LowerChar(s[n - 1]) == c
  }

  predicate Ends4(s: string, a: char, b: char, c: char, d: char) {
    |s| >= 4 && LowerChar(s[|s| - 4]) == a && Ends3(s, b, c, d)
  }

  function KindOf(name: string): Kind {
    if Ends3(name, '.', 'i', 'n') then Input
    else if Ends4(name, '.', 'o', 'u', 't') || Ends4(name, '.', 'a', 'n', 's') then Output
    else NoKind
  }

  /** The kind of a file is the suffix of its lower-cased name. */
  lemma KindIsSuffix(name: string)
    ensures KindOf(name) == Input <==> HasSuffix(ToLower(name), ".in")
    ensures KindOf(name) == Output <==> HasSuffix(ToLower(name), ".out") || HasSuffix(ToLower(name), ".ans")
  {
    Suffix3(name, '.', 'i', 'n');
    Suffix4(name, '.', 'o', 'u', 't');
    Suffix4(name, '.', 'a', 'n', 's');
  }

  lemma Suffix3(s: string, a: char, b: char, c: char)
    ensures Ends3(s, a, b, c) <==> HasSuffix(ToLower(s), [a, b, c])
  {
    var lower := ToLower(s);
    var n := |s|;
    if n >= 3 {
      assert lower[n - 3..] == [lower[n - 3], lower[n - 2], lower[n - 1]];
    }
  }

  lemma Suffix4(s: string, a: char, b: char, c: char, d: char)
    ensures Ends4(s, a, b, c, d) <==> HasSuffix(ToLower(s), [a, b, c, d])
  {
    var lower := ToLower(s);
    var n := |s|;
    if n >= 4 {
      assert lower[n - 4..] == [lower[n - 4], lower[n - 3], lower[n - 2], lower[n - 1]];
    }
  }

  /** `splitDataFile`: the stem and the kind of a data file. */
  function SplitDataFile(name: string): (string, Kind) {
    if KindOf(name) == NoKind then ("", NoKind) else (BeforeExtension(name), KindOf(name))
  }

  /** A data file's stem is its name without the last three or four characters. */
  lemma StemOf(name: string)
    requires KindOf(name) != NoKind
    ensures var n := if KindOf(name) == Input then 3 else 4;
            n <= |name| && name[|name| - n] == '.' && BeforeExtension(name) == name[..|name| - n]
  {
    if KindOf(name) == Input {
      LastDot3(name);
    } else {
      LastDot4(name);
    }
  }

  lemma LastDot3(name: string)
    requires |name| >= 3 && name[|name| - 3] == '.'
    requires name[|name| - 2] != '.' && name[|name| - 2] != '/' && name[|name| - 1] != '.' && name[|name| - 1] != '/'
    ensures BeforeExtension(name) == name[..|name| - 3]
  {
    LastDot(name, |name| - 3);
  }

  lemma LastDot4(name: string)
    requires |name| >= 4 && name[|name| - 4] == '.' && name[|name| - 3] != '.' && name[|name| - 3] != '/'
    requires name[|name| - 2] != '.' && name[|name| - 2] != '/' && name[|name| - 1] != '.' && name[|name| - 1] != '/'
    ensures BeforeExtension(name) == name[..|name| - 4]
  {
    LastDot(name, |name| - 4);
  }

  lemma {:induction false} LastDot(name: string, d: nat)
    requires d < |name| && name[d] == '.' && forall k | d < k < |name| :: name[k] != '.' && name[k] != '/'
    ensures BeforeExtension(name) == name[..d]
  {
    var n := |name| - 1;
    if d < n {
      LastDot(name[..n], d);
      assert name[..n][..d] == name[..d];
    }
  }

  // ---------- what each entry contributes ----------

  /** The places of a package that a file can fill. */
  datatype Slot =
    | ManifestSlot
    | StatementSlot(locale: string)
    | SampleInput(name: string)
    | SampleOutput(name: string)
    | TestInput(stem: string)
    | TestOutput(stem: string)

  datatype Claim = Claim(slot: Slot, value: string)

  /** What an entry does to the package: nothing, an error, a value for a slot, or one more test file name. */
  datatype Effect = Nothing | Fails(error: ParseError) | Fills(claim: Claim) | ListsTest(name: string)

  function Reading(e: Entry, slot: Slot): Effect {
    match e.content
    case Ok(text) => Fills(Claim(slot, text))
    case Err(reason) => Fails(Unreadable(reason))
  }

  /** In the flat layout only files at the root count. */
  function FlatEffect(e: Entry): Effect {
    match SafeZipPath(e.name)
    case Err(_) => Fails(UnsafeEntry(e.name))
    case Ok(name) =>
      if e.isDir || '/' in name then Nothing
      else if name == "statement.md" then Reading(e, StatementSlot(LOCALE))
      else FileEffect(name)
  }

  function FileEffect(name: string): Effect {
    match SplitDataFile(name)
    case (stem, Input) => Fills(Claim(TestInput(stem), name))
    case (stem, Output) => Fills(Claim(TestOutput(stem), name))
    case (_, NoKind) => Nothing
  }

  const LOCALE := "zh-CN"

  function StructuredEffect(e: Entry): Effect {
    match SafeZipPath(e.name)
    case Err(_) => Fails(UnsafeEntry(e.name))
    case Ok(name) =>
      if e.isDir then Nothing
      else if name == "problem.json" then Reading(e, ManifestSlot)
      else PlaceEffect(e, name, PlaceOf(name))
  }

  function PlaceEffect(e: Entry, name: string, place: Place): Effect {
    match place
    case StatementFile(locale) => Reading(e, StatementSlot(locale))
    case SampleFile(sample, Input) => Reading(e, SampleInput(sample))
    case SampleFile(sample, Output) => Reading(e, SampleOutput(sample))
    case TestFile => ListsTest(name)
    case _ => Nothing
  }

  /** What the directory and extension of a structured entry make of it. */
  datatype Place = StatementFile(locale: string) | SampleFile(sample: string, kind: Kind) | TestFile | Elsewhere

  const STATEMENTS := "statements/"
  const SAMPLES := "samples/"
  const TESTS := "tests/"
  const MARKDOWN := ".md"

  function PlaceOf(name: string): Place {
    if HasPrefix(name, STATEMENTS) && HasSuffix(name, MARKDOWN) then
      StatementFile(TrimSuffix(name[|STATEMENTS|..], MARKDOWN))
    else if HasPrefix(name, SAMPLES) then
      var (sample, kind) := SplitDataFile(name[|SAMPLES|..]);
      SampleFile(sample, kind)
    else if HasPrefix(name, TESTS) && KindOf(name[|TESTS|..]) != NoKind then TestFile
    else Elsewhere
  }

  function TrimSuffix(s: string, suffix: string): string {
    if HasSuffix(s, suffix) then s[..|s| - |suffix|] else s
  }

  // ---------- a layout's reading of an archive ----------

  /** The values claimed for each slot; a later entry replaces an earlier one. */
  function Claims(effects: seq<Effect>): map<Slot, string> {
    if effects == [] then map[]
    else
      var n := |effects| - 1;
      After(Claims(effects[..n]), effects[n])
  }

  /** One more claim. */
  function After(claims: map<Slot, string>, e: Effect): map<Slot, string> {
    if e.Fills? then claims[e.claim.slot := e.claim.value] else claims
  }

  function ErrorOf(e: Effect): Option<ParseError> {
    if e.Fails? then Some(e.error) else None
  }

  function Tests(effects: seq<Effect>): seq<string> {
    if effects == [] then []
    else
      var n := |effects| - 1;
      Tests(effects[..n]) + if effects[n].ListsTest? then [effects[n].name] else []
  }

  function FirstError(effects: seq<Effect>): Option<ParseError> {
    if effects == [] then None
    else
      var n := |effects| - 1;
      match FirstError(effects[..n])
      case Some(error) => Some(error)
      case None => ErrorOf(effects[n])
  }

  /** No two effects claim the same slot. */
  ghost predicate DistinctSlots(effects: seq<Effect>) {
    forall i, j | 0 <= i < j < |effects| && effects[i].Fills? && effects[j].Fills? ::
      effects[i].claim.slot != effects[j].claim.slot
  }

  ghost predicate Claimed(effects: seq<Effect>, c: Claim) {
    exists i :: 0 <= i < |effects| && effects[i] == Fills(c)
  }

  lemma {:induction false} ClaimedInMap(effects: seq<Effect>, slot: Slot)
    ensures slot in Claims(effects) ==> Claimed(effects, Claim(slot, Claims(effects)[slot]))
    ensures forall i | 0 <= i < |effects| && effects[i].Fills? && effects[i].claim.slot == slot :: slot in Claims(effects)
  {
    if effects != [] {
      var n := |effects| - 1;
      ClaimedInMap(effects[..n], slot);
      if slot in Claims(effects) && !(effects[n].Fills? && effects[n].claim.slot == slot) {
        var i :| 0 <= i < n && effects[..n][i] == Fills(Claim(slot, Claims(effects)[slot]));
        assert effects[i] == Fills(Claim(slot, Claims(effects)[slot]));
      } else if slot in Claims(effects) {
        assert effects[n] == Fills(Claim(slot, Claims(effects)[slot]));
      }
      forall i | 0 <= i < |effects| && effects[i].Fills? && effects[i].claim.slot == slot ensures slot in Claims(effects) {
        if i < n {
          assert effects[..n][i] == effects[i];
        }
      }
    }
  }

  /** Without clashes the map holds exactly the claims made. */
  lemma ClaimsAreClaimed(effects: seq<Effect>, c: Claim)
    requires DistinctSlots(effects)
    ensures c.slot in Claims(effects) && Claims(effects)[c.slot] == c.value <==> Claimed(effects, c)
  {
    ClaimedInMap(effects, c.slot);
    if Claimed(effects, c) {
      var i :| 0 <= i < |effects| && effects[i] == Fills(c);
      var kept := Claim(c.slot, Claims(effects)[c.slot]);
      var j :| 0 <= j < |effects| && effects[j] == Fills(kept);
    }
  }

  // ---------- the order of the effects ----------

  ghost predicate Rearranged(xs: seq<Effect>, ys: seq<Effect>) {
    multiset(xs) == multiset(ys)
  }

  lemma RearrangedMember(xs: seq<Effect>, ys: seq<Effect>, i: nat) returns (j: nat)
    requires Rearranged(xs, ys) && i < |xs|
    ensures j < |ys| && ys[j] == xs[i]
  {
    assert xs[i] in multiset(ys);
    j :| 0 <= j < |ys| && ys[j] == xs[i];
  }

  lemma ClaimedMoves(xs: seq<Effect>, ys: seq<Effect>, c: Claim)
    requires Rearranged(xs, ys) && Claimed(xs, c)
    ensures Claimed(ys, c)
  {
    var i :| 0 <= i < |xs| && xs[i] == Fills(c);
    var j := RearrangedMember(xs, ys, i);
  }

  /** Entries that fill slots, as a bag of slots: rearranging cannot introduce a clash. */
  lemma DistinctMoves(xs: seq<Effect>, ys: seq<Effect>)
    requires Rearranged(xs, ys) && DistinctSlots(xs)
    ensures DistinctSlots(ys)
  {
    forall i, j | 0 <= i < j < |ys| && ys[i].Fills? && ys[j].Fills?
      ensures ys[i].claim.slot != ys[j].claim.slot
    {
      if ys[i] == ys[j] {
        TwiceInBag(ys, i, j);
        var k, l := TwoPlaces(xs, ys[i]);
      } else {
        var k := RearrangedMember(ys, xs, i);
        var l := RearrangedMember(ys, xs, j);
        assert k != l;
      }
    }
  }

  lemma TwiceInBag(xs: seq<Effect>, i: nat, j: nat)
    requires i < j < |xs| && xs[i] == xs[j]
    ensures multiset(xs)[xs[i]] >= 2
  {
    assert xs == xs[..j] + [xs[j]] + xs[j + 1..];
    assert multiset(xs) == multiset(xs[..j]) + multiset{xs[j]} + multiset(xs[j + 1..]);
    assert xs[..j][i] == xs[i];
    assert xs[i] in multiset(xs[..j]);
  }

  lemma {:induction false} TwoPlaces(xs: seq<Effect>, e: Effect) returns (i: nat, j: nat)
    requires multiset(xs)[e] >= 2
    ensures i < j < |xs| && xs[i] == e && xs[j] == e
  {
    var n := |xs| - 1;
    assert xs == xs[..n] + [xs[n]];
    if xs[n] == e {
      assert e in multiset(xs[..n]);
      i :| 0 <= i < n && xs[..n][i] == e;
      j := n;
    } else {
      i, j := TwoPlaces(xs[..n], e);
    }
  }

  /** Without clashes, the claimed values do not depend on the order of the effects. */
  lemma ClaimsIgnoreOrder(xs: seq<Effect>, ys: seq<Effect>)
    requires Rearranged(xs, ys) && DistinctSlots(xs)
    ensures Claims(xs) == Claims(ys)
  {
    DistinctMoves(xs, ys);
    forall slot ensures slot in Claims(xs) <==> slot in Claims(ys) {
      SameClaim(xs, ys, slot);
      SameClaim(ys, xs, slot);
    }
    forall slot | slot in Claims(xs) ensures Claims(xs)[slot] == Claims(ys)[slot] {
      SameClaim(xs, ys, slot);
    }
  }

  lemma SameClaim(xs: seq<Effect>, ys: seq<Effect>, slot: Slot)
    requires Rearranged(xs, ys) && DistinctSlots(ys)
    ensures slot in Claims(xs) ==> slot in Claims(ys) && Claims(ys)[slot] == Claims(xs)[slot]
  {
    ClaimedInMap(xs, slot);
    if slot in Claims(xs) {
      var c := Claim(slot, Claims(xs)[slot]);
      ClaimedMoves(xs, ys, c);
      ClaimsAreClaimed(ys, c);
    }
  }

  lemma {:induction false} ErrorIffSome(effects: seq<Effect>)
    ensures FirstError(effects).Some? <==> exists i :: 0 <= i < |effects| && effects[i].Fails?
  {
    if effects != [] {
      var n := |effects| - 1;
      ErrorIffSome(effects[..n]);
      if FirstError(effects[..n]).Some? {
        var i :| 0 <= i < n && effects[..n][i].Fails?;
        assert effects[i].Fails?;
      }
      if i :| 0 <= i < |effects| && effects[i].Fails? {
        assert i < n ==> effects[..n][i] == effects[i];
      }
    }
  }

  lemma SuccessIgnoresOrder(xs: seq<Effect>, ys: seq<Effect>)
    requires Rearranged(xs, ys) && FirstError(xs).None?
    ensures FirstError(ys).None?
  {
    ErrorIffSome(xs);
    ErrorIffSome(ys);
    if FirstError(ys).Some? {
      var i :| 0 <= i < |ys| && ys[i].Fails?;
      var j := RearrangedMember(ys, xs, i);
    }
  }

  /** A test is listed as often as an entry lists it. */
  lemma {:induction false} TestsCounted(effects: seq<Effect>, name: string)
    ensures multiset(Tests(effects))[name] == multiset(effects)[ListsTest(name)]
  {
    if effects != [] {
      var n := |effects| - 1;
      TestsCounted(effects[..n], name);
      assert effects == effects[..n] + [effects[n]];
    }
  }

  lemma TestsMove(xs: seq<Effect>, ys: seq<Effect>)
    requires Rearranged(xs, ys)
    ensures multiset(Tests(xs)) == multiset(Tests(ys))
  {
    forall name ensures multiset(Tests(xs))[name] == multiset(Tests(ys))[name] {
      TestsCounted(xs, name);
      TestsCounted(ys, name);
    }
  }

  /** So the sorted list of tests does not depend on the order of the effects. */
  lemma SortedTestsIgnoreOrder(xs: seq<Effect>, ys: seq<Effect>)
    requires Rearranged(xs, ys)
    ensures Sort(StringLess, Tests(xs)) == Sort(StringLess, Tests(ys))
  {
    TestsMove(xs, ys);
    StringLessIsStrictOrder(Elements(Tests(xs)));
    SortIgnoresOrder(StringLess, Tests(xs), Tests(ys));
  }

  // ---------- the flat layout ----------

  function FlatManifest(m: FlatMetadata): Manifest {
    Manifest(TrimSpace(m.title), DefaultPositive(m.timeLimit, 1000), DefaultPositive(m.memoryLimit, 256),
             NormalizeProblemType(m.judgeType), NormalizeProblemType(m.judgeType))
  }

  /** A place nothing was claimed for reads as the empty string. */
  function Get(claims: map<Slot, string>, slot: Slot): string {
    if slot in claims then claims[slot] else ""
  }

  /** The stems for which both an input and an output were found. */
  ghost function PairedStems(claims: map<Slot, string>): set<string> {
    set slot | slot in claims && slot.TestInput? && TestOutput(slot.stem) in claims :: slot.stem
  }

  ghost function SortedStems(stems: set<string>): seq<string> {
    Sort(StringLess, Enumerate(stems))
  }

  /** Input and output name of each stem, in order. */
  function Pairs(stems: seq<string>, claims: map<Slot, string>): (files: seq<string>)
    ensures |files| == 2 * |stems|
    ensures forall k | 0 <= k < |stems| ::
              files[2 * k] == Get(claims, TestInput(stems[k])) && files[2 * k + 1] == Get(claims, TestOutput(stems[k]))
  {
    if stems == [] then []
    else
      var n := |stems| - 1;
      Pairs(stems[..n], claims) + [Get(claims, TestInput(stems[n])), Get(claims, TestOutput(stems[n]))]
  }

  ghost function FlatParse(filename: string, entries: seq<Entry>, metadata: FlatMetadata): Result<Package, ParseError> {
    FlatResult(filename, Map(FlatEffect, entries), metadata)
  }

  ghost function FlatResult(filename: string, effects: seq<Effect>, metadata: FlatMetadata): Result<Package, ParseError> {
    match FirstError(effects)
    case Some(error) => Err(error)
    case None =>
      var claims := Claims(effects);
      if TrimSpace(Get(claims, StatementSlot(LOCALE))) == "" then Err(StatementMissing)
      else Ok(Package(filename, FlatManifest(metadata), map[LOCALE := claims[StatementSlot(LOCALE)]], [],
                      Pairs(SortedStems(PairedStems(claims)), claims)))
  }

  /** The parser's maps hold what has been claimed so far. */
  ghost predicate FlatState(claims: map<Slot, string>, statements: map<string, string>,
                            inputs: map<string, string>, outputs: map<string, string>)
  {
    && (forall slot | slot in claims :: slot == StatementSlot(LOCALE) || (claims[slot] != "" && (slot.TestInput? || slot.TestOutput?)))
    && (forall locale | locale in statements :: locale == LOCALE)
    && (LOCALE in statements <==> StatementSlot(LOCALE) in claims)
    && (LOCALE in statements ==> statements[LOCALE] == claims[StatementSlot(LOCALE)])
    && (forall stem :: stem in inputs <==> TestInput(stem) in claims)
    && (forall stem | stem in inputs :: inputs[stem] == claims[TestInput(stem)])
    && (forall stem :: stem in outputs <==> TestOutput(stem) in claims)
    && (forall stem | stem in outputs :: outputs[stem] == claims[TestOutput(stem)])
  }

  /** One more effect at the end. */
  lemma OneMore(effects: seq<Effect>, i: nat)
    requires i < |effects|
    ensures var before, after := effects[..i], effects[..i + 1];
            && Claims(after) == After(Claims(before), effects[i])
            && Tests(after) == Tests(before) + (if effects[i].ListsTest? then [effects[i].name] else [])
            && FirstError(after) == (if FirstError(before).Some? then FirstError(before) else ErrorOf(effects[i]))
  {
    assert effects[..i + 1][..i] == effects[..i];
  }

  lemma {:induction false} ErrorStays(effects: seq<Effect>, i: nat)
    requires i <= |effects| && FirstError(effects[..i]).Some?
    ensures FirstError(effects) == FirstError(effects[..i])
    decreases |effects| - i
  {
    if i < |effects| {
      OneMore(effects, i);
      ErrorStays(effects, i + 1);
    } else {
      assert effects[..i] == effects;
    }
  }

  /** The parse of a flat archive. */
  method ParseFlat(filename: string, entries: seq<Entry>, metadata: FlatMetadata) returns (r: Result<Package, ParseError>)
    ensures r == FlatParse(filename, entries, metadata)
  {
    ghost var effects := Map(FlatEffect, entries);
    var error, statements, inputs, outputs := CollectFlat(entries);
    if error.Some? {
      return Err(error.value);
    }
    if TrimSpace(if LOCALE in statements then statements[LOCALE] else "") == "" {
      return Err(StatementMissing);
    }
    var testFiles := PairFiles(inputs, outputs, Claims(effects), statements);
    r := Ok(Package(filename, FlatManifest(metadata), statements, [], testFiles));
    assert statements == map[LOCALE := Claims(effects)[StatementSlot(LOCALE)]];
  }

  /** The loop over the entries. */
  method CollectFlat(entries: seq<Entry>)
    returns (error: Option<ParseError>, statements: map<string, string>, inputs: map<string, string>, outputs: map<string, string>)
    ensures error == FirstError(Map(FlatEffect, entries))
    ensures error.None? ==> FlatState(Claims(Map(FlatEffect, entries)), statements, inputs, outputs)
  {
    ghost var effects := Map(FlatEffect, entries);
    error, statements, inputs, outputs := None, map[], map[], map[];
    for i := 0 to |entries|
      invariant FirstError(effects[..i]).None?
      invariant FlatState(Claims(effects[..i]), statements, inputs, outputs)
    {
      OneMore(effects, i);
      error, statements, inputs, outputs := FlatEntry(entries[i], Claims(effects[..i]), statements, inputs, outputs);
      if error.Some? {
        ErrorStays(effects, i + 1);
        return;
      }
    }
    assert effects[..|entries|] == effects;
    error := None;
  }

  /** The loop body: one entry. */
  method FlatEntry(entry: Entry, ghost claims: map<Slot, string>, statements: map<string, string>,
                   inputs: map<string, string>, outputs: map<string, string>)
    returns (error: Option<ParseError>, statements': map<string, string>,
             inputs': map<string, string>, outputs': map<string, string>)
    requires FlatState(claims, statements, inputs, outputs)
    ensures error == ErrorOf(FlatEffect(entry))
    ensures FlatState(After(claims, FlatEffect(entry)), statements', inputs', outputs')
  {
    error, statements', inputs', outputs' := None, statements, inputs, outputs;
    var checked := CheckZipPath(entry.name);
    if checked.Err? {
      return Some(UnsafeEntry(entry.name)), statements, inputs, outputs;
    }
    var name := checked.value;
    AcceptedNonEmpty(entry.name);
    if entry.isDir || '/' in name {
      return;
    }
    if name == "statement.md" {
      if entry.content.Err? {
        return Some(Unreadable(entry.content.error)), statements, inputs, outputs;
      }
      statements' := statements[LOCALE := entry.content.value];
    } else {
      inputs', outputs' := FlatFile(name, claims, statements, inputs, outputs);
    }
  }

  method FlatFile(name: string, ghost claims: map<Slot, string>, ghost statements: map<string, string>,
                  inputs: map<string, string>, outputs: map<string, string>)
    returns (inputs': map<string, string>, outputs': map<string, string>)
    requires FlatState(claims, statements, inputs, outputs) && name != ""
    ensures FlatState(After(claims, FileEffect(name)), statements, inputs', outputs')
  {
    inputs', outputs' := inputs, outputs;
    var (stem, kind) := SplitDataFile(name);
    if kind == Input {
      inputs' := inputs[stem := name];
    }
    if kind == Output {
      outputs' := outputs[stem := name];
    }
  }

  /** Pairs inputs with outputs: the names are collected in the map's own order, then sorted. */
  method PairFiles(inputs: map<string, string>, outputs: map<string, string>, ghost claims: map<Slot, string>,
                   ghost statements: map<string, string>)
    returns (testFiles: seq<string>)
    requires FlatState(claims, statements, inputs, outputs)
    ensures testFiles == Pairs(SortedStems(PairedStems(claims)), claims)
  {
    var names: seq<string> := [];
    var rest := inputs.Keys;
    while rest != {}
      invariant rest <= inputs.Keys
      invariant forall i, j | 0 <= i < j < |names| :: names[i] != names[j]
      invariant forall name :: name in names <==> name in inputs && name !in rest && name in outputs
    {
      var name :| name in rest;
      if (if name in outputs then outputs[name] else "") != "" {
        names := names + [name];
      }
      rest := rest - {name};
    }
    StemsCollected(names, inputs, outputs, claims, statements);
    names := Sort(StringLess, names);
    testFiles := [];
    for i := 0 to |names|
      invariant testFiles == Pairs(names[..i], claims)
    {
      assert names[..i + 1][..i] == names[..i];
      assert names[i] in Elements(names);
      testFiles := testFiles + [inputs[names[i]], outputs[names[i]]];
    }
    assert names[..|names|] == names;
  }

  lemma StemsCollected(names: seq<string>, inputs: map<string, string>, outputs: map<string, string>,
                       claims: map<Slot, string>, statements: map<string, string>)
    requires FlatState(claims, statements, inputs, outputs)
    requires forall i, j | 0 <= i < j < |names| :: names[i] != names[j]
    requires forall name :: name in names <==> name in inputs && name in outputs
    ensures Sort(StringLess, names) == SortedStems(PairedStems(claims))
    ensures forall name | name in Elements(Sort(StringLess, names)) :: name in inputs && name in outputs
  {
    forall stem ensures stem in names <==> stem in PairedStems(claims) {
      if stem in names {
        assert TestInput(stem) in claims && TestOutput(stem) in claims;
      }
    }
    assert Elements(names) == PairedStems(claims);
    StringLessIsStrictOrder(Elements(names));
    SortDistinct(StringLess, names);
    SortDistinct(StringLess, Enumerate(PairedStems(claims)));
    ChainIsUnique(StringLess, Sort(StringLess, names), SortedStems(PairedStems(claims)));
  }

  // ---------- the structured layout ----------

  /** The manifest after the effects so far, or the error that stopped the parser. */
  function ManifestAfter(reader: ManifestReader, effects: seq<Effect>): Result<Manifest, ParseError> {
    if effects == [] then Ok(EMPTY_MANIFEST)
    else
      var n := |effects| - 1;
      match ManifestAfter(reader, effects[..n])
      case Err(error) => Err(error)
      case Ok(manifest) => ManifestStep(reader, manifest, effects[n])
  }

  function ManifestStep(reader: ManifestReader, manifest: Manifest, e: Effect): Result<Manifest, ParseError> {
    match e
    case Fails(error) => Err(error)
    case Fills(Claim(ManifestSlot, text)) =>
      (match reader(text, manifest)
       case None => Err(BadManifest)
       case Some(read) => Ok(read))
    case _ => Ok(manifest)
  }

  ghost function StatementsOf(claims: map<Slot, string>): map<string, string> {
    map locale | locale in (set slot | slot in claims && slot.StatementSlot? :: slot.locale) :: claims[StatementSlot(locale)]
  }

  /** The samples of which both a nonempty input and a nonempty output were found. */
  ghost function CompleteSamples(claims: map<Slot, string>): set<string> {
    set slot | slot in claims && slot.SampleInput? && claims[slot] != "" && Get(claims, SampleOutput(slot.name)) != "" :: slot.name
  }

  ghost function SampleCases(names: seq<string>, claims: map<Slot, string>): (r: seq<Sample>)
    ensures |r| == |names|
    ensures forall i | 0 <= i < |names| ::
              r[i] == Sample(names[i], Get(claims, SampleInput(names[i])), Get(claims, SampleOutput(names[i])))
  {
    seq(|names|, i requires 0 <= i < |names| =>
          Sample(names[i], Get(claims, SampleInput(names[i])), Get(claims, SampleOutput(names[i]))))
  }

  ghost function StructuredParse(reader: ManifestReader, filename: string, entries: seq<Entry>): Result<Package, ParseError> {
    StructuredResult(reader, filename, Map(StructuredEffect, entries))
  }

  ghost function StructuredResult(reader: ManifestReader, filename: string, effects: seq<Effect>): Result<Package, ParseError> {
    match ManifestAfter(reader, effects)
    case Err(error) => Err(error)
    case Ok(manifest) =>
      var claims := Claims(effects);
      Ok(Package(filename, manifest, StatementsOf(claims), SampleCases(SortedStems(CompleteSamples(claims)), claims),
                 Sort(StringLess, Tests(effects))))
  }

  datatype SampleParts = SampleParts(input: string, output: string)

  /** The parser's maps hold what has been claimed so far. */
  ghost predicate StructuredState(claims: map<Slot, string>, statements: map<string, string>, samples: map<string, SampleParts>) {
    && (forall locale :: locale in statements <==> StatementSlot(locale) in claims)
    && (forall locale | locale in statements :: statements[locale] == claims[StatementSlot(locale)])
    && (forall name :: name in samples <==> SampleInput(name) in claims || SampleOutput(name) in claims)
    && (forall name | name in samples ::
          samples[name] == SampleParts(Get(claims, SampleInput(name)), Get(claims, SampleOutput(name))))
  }

  lemma OneMoreManifest(reader: ManifestReader, effects: seq<Effect>, i: nat)
    requires i < |effects| && ManifestAfter(reader, effects[..i]).Ok?
    ensures ManifestAfter(reader, effects[..i + 1])
         == ManifestStep(reader, ManifestAfter(reader, effects[..i]).value, effects[i])
  {
    assert effects[..i + 1][..i] == effects[..i];
  }

  lemma {:induction false} ManifestErrorStays(reader: ManifestReader, effects: seq<Effect>, i: nat)
    requires i <= |effects| && ManifestAfter(reader, effects[..i]).Err?
    ensures ManifestAfter(reader, effects) == ManifestAfter(reader, effects[..i])
    decreases |effects| - i
  {
    if i < |effects| {
      assert effects[..i + 1][..i] == effects[..i];
      ManifestErrorStays(reader, effects, i + 1);
    } else {
      assert effects[..i] == effects;
    }
  }

  /** The parse of a structured archive. */
  method ParseStructured(reader: ManifestReader, filename: string, entries: seq<Entry>) returns (r: Result<Package, ParseError>)
    ensures r == StructuredParse(reader, filename, entries)
  {
    ghost var effects := Map(StructuredEffect, entries);
    var collected, statements, samples, testFiles := CollectStructured(reader, entries);
    if collected.Err? {
      return Err(collected.error);
    }
    var cases := CollectSamples(samples, Claims(effects), statements);
    SameStatements(Claims(effects), statements, samples);
    r := Ok(Package(filename, collected.value, statements, cases, Sort(StringLess, testFiles)));
  }

  lemma SameStatements(claims: map<Slot, string>, statements: map<string, string>, samples: map<string, SampleParts>)
    requires StructuredState(claims, statements, samples)
    ensures statements == StatementsOf(claims)
  {
    var locales := set slot | slot in claims && slot.StatementSlot? :: slot.locale;
    forall locale ensures locale in statements <==> locale in locales {
      if locale in statements {
        assert StatementSlot(locale) in claims && StatementSlot(locale).locale == locale;
      }
    }
  }

  /** The loop over the entries. */
  method CollectStructured(reader: ManifestReader, entries: seq<Entry>)
    returns (manifest: Result<Manifest, ParseError>, statements: map<string, string>,
             samples: map<string, SampleParts>, testFiles: seq<string>)
    ensures manifest == ManifestAfter(reader, Map(StructuredEffect, entries))
    ensures manifest.Ok? ==> StructuredState(Claims(Map(StructuredEffect, entries)), statements, samples)
    ensures manifest.Ok? ==> testFiles == Tests(Map(StructuredEffect, entries))
  {
    ghost var effects := Map(StructuredEffect, entries);
    manifest, statements, samples, testFiles := Ok(EMPTY_MANIFEST), map[], map[], [];
    for i := 0 to |entries|
      invariant manifest.Ok? && manifest == ManifestAfter(reader, effects[..i])
      invariant StructuredState(Claims(effects[..i]), statements, samples)
      invariant testFiles == Tests(effects[..i])
    {
      OneMore(effects, i);
      OneMoreManifest(reader, effects, i);
      var listed;
      manifest, statements, samples, listed :=
        StructuredEntry(reader, entries[i], manifest.value, Claims(effects[..i]), statements, samples);
      if manifest.Err? {
        ManifestErrorStays(reader, effects, i + 1);
        return;
      }
      testFiles := testFiles + listed;
    }
    assert effects[..|entries|] == effects;
  }

  /** The loop body: one entry. */
  method StructuredEntry(reader: ManifestReader, entry: Entry, manifest: Manifest, ghost claims: map<Slot, string>,
                         statements: map<string, string>, samples: map<string, SampleParts>)
    returns (manifest': Result<Manifest, ParseError>, statements': map<string, string>,
             samples': map<string, SampleParts>, listed: seq<string>)
    requires StructuredState(claims, statements, samples)
    ensures manifest' == ManifestStep(reader, manifest, StructuredEffect(entry))
    ensures manifest'.Ok? ==> StructuredState(After(claims, StructuredEffect(entry)), statements', samples')
    ensures manifest'.Ok? ==> listed == if StructuredEffect(entry).ListsTest? then [StructuredEffect(entry).name] else []
  {
    manifest', statements', samples', listed := Ok(manifest), statements, samples, [];
    var checked := CheckZipPath(entry.name);
    if checked.Err? {
      return Err(UnsafeEntry(entry.name)), statements, samples, [];
    }
    var name := checked.value;
    if entry.isDir {
      return;
    }
    if name == "problem.json" {
      if entry.content.Err? {
        return Err(Unreadable(entry.content.error)), statements, samples, [];
      }
      var read := reader(entry.content.value, manifest);
      if read.None? {
        return Err(BadManifest), statements, samples, [];
      }
      return Ok(read.value), statements, samples, [];
    }
    var error;
    error, statements', samples', listed := PlaceEntry(entry, name, PlaceOf(name), claims, statements, samples);
    if error.Some? {
      return Err(error.value), statements, samples, [];
    }
  }

  method PlaceEntry(entry: Entry, name: string, place: Place, ghost claims: map<Slot, string>,
                    statements: map<string, string>, samples: map<string, SampleParts>)
    returns (error: Option<ParseError>, statements': map<string, string>,
             samples': map<string, SampleParts>, listed: seq<string>)
    requires StructuredState(claims, statements, samples)
    ensures error == ErrorOf(PlaceEffect(entry, name, place))
    ensures error.None? ==> StructuredState(After(claims, PlaceEffect(entry, name, place)), statements', samples')
    ensures error.None? ==>
              listed == if PlaceEffect(entry, name, place).ListsTest? then [PlaceEffect(entry, name, place).name] else []
  {
    error, statements', samples', listed := None, statements, samples, [];
    match place {
      case StatementFile(locale) =>
        if entry.content.Err? {
          return Some(Unreadable(entry.content.error)), statements, samples, [];
        }
        statements' := statements[locale := entry.content.value];
      case SampleFile(sample, kind) =>
        if kind == NoKind {
          return;
        }
        if entry.content.Err? {
          return Some(Unreadable(entry.content.error)), statements, samples, [];
        }
        var part := if sample in samples then samples[sample] else SampleParts("", "");
        if kind == Input {
          part := part.(input := entry.content.value);
        } else {
          part := part.(output := entry.content.value);
        }
        samples' := samples[sample := part];
      case TestFile =>
        listed := [name];
      case Elsewhere =>
    }
  }

  predicate IsComplete(samples: map<string, SampleParts>, name: string) {
    name in samples && samples[name].input != "" && samples[name].output != ""
  }

  lemma OneMoreSample(names: seq<string>, claims: map<Slot, string>, statements: map<string, string>,
                      samples: map<string, SampleParts>, i: nat)
    requires StructuredState(claims, statements, samples) && i < |names| && names[i] in samples
    ensures SampleCases(names, claims)[..i + 1]
         == SampleCases(names, claims)[..i] + [Sample(names[i], samples[names[i]].input, samples[names[i]].output)]
  {
    var name := names[i];
    assert samples[name] == SampleParts(Get(claims, SampleInput(name)), Get(claims, SampleOutput(name)));
  }

  /** `sampleCases`: names in the map's own order, then sorted. */
  method CollectSamples(samples: map<string, SampleParts>, ghost claims: map<Slot, string>, ghost statements: map<string, string>)
    returns (cases: seq<Sample>)
    requires StructuredState(claims, statements, samples)
    ensures cases == SampleCases(SortedStems(CompleteSamples(claims)), claims)
  {
    var names: seq<string> := [];
    var rest := samples.Keys;
    while rest != {}
      invariant rest <= samples.Keys
      invariant forall i, j | 0 <= i < j < |names| :: names[i] != names[j]
      invariant forall name :: name in names <==> IsComplete(samples, name) && name !in rest
    {
      var name :| name in rest;
      if samples[name].input != "" && samples[name].output != "" {
        names := names + [name];
      }
      rest := rest - {name};
    }
    SamplesCollected(names, samples, claims, statements);
    names := Sort(StringLess, names);
    cases := [];
    for i := 0 to |names|
      invariant cases == SampleCases(names, claims)[..i]
    {
      assert names[i] in Elements(names);
      OneMoreSample(names, claims, statements, samples, i);
      cases := cases + [Sample(names[i], samples[names[i]].input, samples[names[i]].output)];
    }
  }

  lemma SamplesCollected(names: seq<string>, samples: map<string, SampleParts>,
                         claims: map<Slot, string>, statements: map<string, string>)
    requires StructuredState(claims, statements, samples)
    requires forall i, j | 0 <= i < j < |names| :: names[i] != names[j]
    requires forall name :: name in names <==> IsComplete(samples, name)
    ensures Sort(StringLess, names) == SortedStems(CompleteSamples(claims))
    ensures forall name | name in Elements(Sort(StringLess, names)) :: name in samples
  {
    forall name ensures name in names <==> name in CompleteSamples(claims) {
      if name in names {
        assert SampleInput(name) in claims && claims[SampleInput(name)] != "" && SampleInput(name).name == name;
      }
    }
    assert Elements(names) == CompleteSamples(claims);
    StringLessIsStrictOrder(Elements(names));
    SortDistinct(StringLess, names);
    SortDistinct(StringLess, Enumerate(CompleteSamples(claims)));
    ChainIsUnique(StringLess, Sort(StringLess, names), SortedStems(CompleteSamples(claims)));
  }

  // ---------- choosing the layout ----------

  function WithoutTrailingSlashes(s: string): string {
    if s != "" && s[|s| - 1] == '/' then WithoutTrailingSlashes(s[..|s| - 1]) else s
  }

  function AfterLastSlash(s: string): string {
    if s == "" || s[|s| - 1] == '/' then "" else AfterLastSlash(s[..|s| - 1]) + [s[|s| - 1]]
  }

  /** `path.Base`. */
  function Base(path: string): string {
    if path == "" then "."
    else
      var trimmed := WithoutTrailingSlashes(path);
      if trimmed == "" then "/" else AfterLastSlash(trimmed)
  }

  predicate NamesManifest(e: Entry) {
    Base(ReplaceBackslashes(e.name)) == "problem.json"
  }

  predicate IsStructured(entries: seq<Entry>) {
    exists i :: 0 <= i < |entries| && NamesManifest(entries[i])
  }

  ghost function Parse(reader: ManifestReader, filename: string, entries: seq<Entry>, metadata: FlatMetadata)
    : Result<Package, ParseError>
  {
    if IsStructured(entries) then StructuredParse(reader, filename, entries) else FlatParse(filename, entries, metadata)
  }

  method DetectStructured(entries: seq<Entry>) returns (structured: bool)
    ensures structured == IsStructured(entries)
  {
    for i := 0 to |entries|
      invariant forall j | 0 <= j < i :: !NamesManifest(entries[j])
    {
      if NamesManifest(entries[i]) {
        return true;
      }
    }
    structured := false;
  }

  method ParseProblemPackage(reader: ManifestReader, filename: string, entries: seq<Entry>, metadata: FlatMetadata)
    returns (r: Result<Package, ParseError>)
    ensures r == Parse(reader, filename, entries, metadata)
  {
    var structured := DetectStructured(entries);
    if structured {
      r := ParseStructured(reader, filename, entries);
    } else {
      r := ParseFlat(filename, entries, metadata);
    }
  }

  // ---------- the order of the entries does not matter ----------

  lemma DistinctEffectsPrefix(effects: seq<Effect>)
    requires effects != [] && DistinctSlots(effects)
    ensures DistinctSlots(effects[..|effects| - 1])
    ensures effects[|effects| - 1].Fills? ==> effects[|effects| - 1].claim.slot !in Claims(effects[..|effects| - 1])
  {
    var n := |effects| - 1;
    if effects[n].Fills? {
      var slot := effects[n].claim.slot;
      ClaimedInMap(effects[..n], slot);
    }
  }

  /** Without clashes the manifest is what the single problem.json, if any, says. */
  lemma {:induction false} ManifestOfClaims(reader: ManifestReader, effects: seq<Effect>)
    requires DistinctSlots(effects)
    ensures var claims := Claims(effects);
            var read := if ManifestSlot in claims then reader(claims[ManifestSlot], EMPTY_MANIFEST) else Some(EMPTY_MANIFEST);
            && (ManifestAfter(reader, effects).Ok? <==> FirstError(effects).None? && read.Some?)
            && (ManifestAfter(reader, effects).Ok? ==> ManifestAfter(reader, effects).value == read.value)
  {
    if effects != [] {
      DistinctEffectsPrefix(effects);
      ManifestOfClaims(reader, effects[..|effects| - 1]);
    }
  }

  lemma StructuredMoves(reader: ManifestReader, filename: string, xs: seq<Effect>, ys: seq<Effect>)
    requires Rearranged(xs, ys) && DistinctSlots(xs) && StructuredResult(reader, filename, xs).Ok?
    ensures StructuredResult(reader, filename, ys) == StructuredResult(reader, filename, xs)
  {
    ManifestOfClaims(reader, xs);
    DistinctMoves(xs, ys);
    ManifestOfClaims(reader, ys);
    SuccessIgnoresOrder(xs, ys);
    ClaimsIgnoreOrder(xs, ys);
    SortedTestsIgnoreOrder(xs, ys);
  }

  lemma FlatMoves(filename: string, xs: seq<Effect>, ys: seq<Effect>, metadata: FlatMetadata)
    requires Rearranged(xs, ys) && DistinctSlots(xs) && FlatResult(filename, xs, metadata).Ok?
    ensures FlatResult(filename, ys, metadata) == FlatResult(filename, xs, metadata)
  {
    SuccessIgnoresOrder(xs, ys);
    ClaimsIgnoreOrder(xs, ys);
  }

  lemma LayoutMoves(xs: seq<Entry>, ys: seq<Entry>)
    requires multiset(xs) == multiset(ys) && IsStructured(xs)
    ensures IsStructured(ys)
  {
    var i :| 0 <= i < |xs| && NamesManifest(xs[i]);
    assert xs[i] in multiset(ys);
    var j :| 0 <= j < |ys| && ys[j] == xs[i];
  }

  function LayoutEffects(entries: seq<Entry>): seq<Effect> {
    if IsStructured(entries) then Map(StructuredEffect, entries) else Map(FlatEffect, entries)
  }

  /**
    Permuting the entries of an archive does not change a successful parse, in either layout, when no two
    entries claim the same slot. Test files of the structured layout may even repeat.
   */
  lemma OrderIrrelevant(reader: ManifestReader, filename: string, xs: seq<Entry>, ys: seq<Entry>, metadata: FlatMetadata)
    requires multiset(xs) == multiset(ys)
    ensures DistinctSlots(LayoutEffects(xs)) && Parse(reader, filename, xs, metadata).Ok? ==>
              Parse(reader, filename, ys, metadata) == Parse(reader, filename, xs, metadata)
  {
    if DistinctSlots(LayoutEffects(xs)) && Parse(reader, filename, xs, metadata).Ok? {
      if IsStructured(xs) {
        LayoutMoves(xs, ys);
        MapRearranged(StructuredEffect, xs, ys);
        StructuredMoves(reader, filename, Map(StructuredEffect, xs), Map(StructuredEffect, ys));
      } else {
        if IsStructured(ys) {
          LayoutMoves(ys, xs);
        }
        MapRearranged(FlatEffect, xs, ys);
        FlatMoves(filename, Map(FlatEffect, xs), Map(FlatEffect, ys), metadata);
      }
    }
  }

  // ---------- the test files of a flat package ----------

  /** A data file at the archive root. */
  ghost predicate RootFile(e: Entry, stem: string, kind: Kind, name: string) {
    && SafeZipPath(e.name) == Ok(name) && !e.isDir && '/' !in name
    && SplitDataFile(name) == (stem, kind) && kind != NoKind
  }

  ghost predicate HasRootFile(entries: seq<Entry>, stem: string, kind: Kind) {
    exists i, name :: 0 <= i < |entries| && RootFile(entries[i], stem, kind, name)
  }

  lemma StatementIsNoData()
    ensures KindOf("statement.md") == NoKind
  {
    var name := "statement.md";
    assert |name| == 12 && name[11] == 'd';
  }

  lemma RootFileEffect(e: Entry, stem: string, name: string)
    ensures FlatEffect(e) == Fills(Claim(TestInput(stem), name)) <==> RootFile(e, stem, Input, name)
    ensures FlatEffect(e) == Fills(Claim(TestOutput(stem), name)) <==> RootFile(e, stem, Output, name)
  {
    StatementIsNoData();
  }

  /** A claimed test slot names a root file, and a root file gets its slot claimed. */
  lemma SlotIffRootFile(entries: seq<Entry>, stem: string, kind: Kind)
    requires kind != NoKind
    ensures var claims := Claims(Map(FlatEffect, entries));
            var slot := if kind == Input then TestInput(stem) else TestOutput(stem);
            && (slot in claims <==> HasRootFile(entries, stem, kind))
            && (slot in claims ==> exists i :: 0 <= i < |entries| && RootFile(entries[i], stem, kind, claims[slot]))
  {
    var effects := Map(FlatEffect, entries);
    var slot := if kind == Input then TestInput(stem) else TestOutput(stem);
    ClaimedInMap(effects, slot);
    if slot in Claims(effects) {
      var i :| 0 <= i < |effects| && effects[i] == Fills(Claim(slot, Claims(effects)[slot]));
      RootFileEffect(entries[i], stem, Claims(effects)[slot]);
    }
    if HasRootFile(entries, stem, kind) {
      var i, name :| 0 <= i < |entries| && RootFile(entries[i], stem, kind, name);
      RootFileEffect(entries[i], stem, name);
      assert effects[i].Fills?;
    }
  }

  lemma PairedIffBothKinds(entries: seq<Entry>, stem: string)
    ensures stem in PairedStems(Claims(Map(FlatEffect, entries)))
       <==> HasRootFile(entries, stem, Input) && HasRootFile(entries, stem, Output)
  {
    SlotIffRootFile(entries, stem, Input);
    SlotIffRootFile(entries, stem, Output);
    var claims := Claims(Map(FlatEffect, entries));
    if TestInput(stem) in claims && TestOutput(stem) in claims {
      assert TestInput(stem).stem == stem;
    }
  }

  lemma PairOfStem(entries: seq<Entry>, stems: seq<string>, k: nat)
    requires k < |stems| && stems[k] in PairedStems(Claims(Map(FlatEffect, entries)))
    ensures PairAt(entries, Pairs(stems, Claims(Map(FlatEffect, entries))), k, stems[k])
  {
    SlotIffRootFile(entries, stems[k], Input);
    SlotIffRootFile(entries, stems[k], Output);
  }

  /**
    The test files of a flat package are (input, output) pairs of root files with equal stems, in strictly
    increasing stem order, one pair for each stem that has both.
   */
  lemma FlatTestFiles(filename: string, entries: seq<Entry>, metadata: FlatMetadata) returns (stems: seq<string>)
    ensures Chain(StringLess, stems)
    ensures forall stem :: stem in stems <==> HasRootFile(entries, stem, Input) && HasRootFile(entries, stem, Output)
    ensures FlatParse(filename, entries, metadata).Ok? ==>
              var files := FlatParse(filename, entries, metadata).value.testFiles;
              |files| == 2 * |stems| && forall k | 0 <= k < |stems| :: PairAt(entries, files, k, stems[k])
  {
    var claims := Claims(Map(FlatEffect, entries));
    stems := SortedStems(PairedStems(claims));
    StringLessIsStrictOrder(PairedStems(claims));
    SortDistinct(StringLess, Enumerate(PairedStems(claims)));
    forall stem ensures stem in stems <==> HasRootFile(entries, stem, Input) && HasRootFile(entries, stem, Output) {
      PairedIffBothKinds(entries, stem);
      assert stem in stems <==> stem in Elements(stems);
    }
    FilesArePairs(filename, entries, metadata);
    forall k | 0 <= k < |stems| ensures PairAt(entries, Pairs(stems, claims), k, stems[k]) {
      assert stems[k] in Elements(stems);
      PairOfStem(entries, stems, k);
    }
  }

  lemma FilesArePairs(filename: string, entries: seq<Entry>, metadata: FlatMetadata)
    ensures FlatParse(filename, entries, metadata).Ok? ==>
              var claims := Claims(Map(FlatEffect, entries));
              FlatParse(filename, entries, metadata).value.testFiles == Pairs(SortedStems(PairedStems(claims)), claims)
  {
  }

  ghost predicate PairAt(entries: seq<Entry>, files: seq<string>, k: nat, stem: string) {
    && 2 * k + 1 < |files|
    && (exists i :: 0 <= i < |entries| && RootFile(entries[i], stem, Input, files[2 * k]))
    && (exists i :: 0 <= i < |entries| && RootFile(entries[i], stem, Output, files[2 * k + 1]))
  }

  /** The check an import makes before it can be published. */
  ghost predicate HasInputAndOutput(files: seq<string>) {
    && (exists i :: 0 <= i < |files| && KindOf(files[i]) == Input)
    && (exists i :: 0 <= i < |files| && KindOf(files[i]) == Output)
  }

  method CheckInputAndOutput(files: seq<string>) returns (r: bool)
    ensures r == HasInputAndOutput(files)
  {
    var hasInput, hasOutput := false, false;
    for i := 0 to |files|
      invariant hasInput <==> exists j :: 0 <= j < i && KindOf(files[j]) == Input
      invariant hasOutput <==> exists j :: 0 <= j < i && KindOf(files[j]) == Output
    {
      hasInput := hasInput || Ends3(files[i], '.', 'i', 'n');
      hasOutput := hasOutput || Ends4(files[i], '.', 'o', 'u', 't') || Ends4(files[i], '.', 'a', 'n', 's');
    }
    r := hasInput && hasOutput;
  }

  /** A flat package has input and output exactly when it has any test file at all. */
  lemma FlatHasTestsIffAny(filename: string, entries: seq<Entry>, metadata: FlatMetadata)
    ensures FlatParse(filename, entries, metadata).Ok? ==>
              var files := FlatParse(filename, entries, metadata).value.testFiles;
              HasInputAndOutput(files) <==> files != []
  {
    var stems := FlatTestFiles(filename, entries, metadata);
    if FlatParse(filename, entries, metadata).Ok? {
      var files := FlatParse(filename, entries, metadata).value.testFiles;
      if files != [] {
        PairKinds(entries, files, 0, stems[0]);
      }
    }
  }

  lemma PairKinds(entries: seq<Entry>, files: seq<string>, k: nat, stem: string)
    requires PairAt(entries, files, k, stem)
    ensures KindOf(files[2 * k]) == Input && KindOf(files[2 * k + 1]) == Output
  {
    var i :| 0 <= i < |entries| && RootFile(entries[i], stem, Input, files[2 * k]);
    var j :| 0 <= j < |entries| && RootFile(entries[j], stem, Output, files[2 * k + 1]);
    KindFromSplit(files[2 * k]);
    KindFromSplit(files[2 * k + 1]);
  }

  lemma KindFromSplit(name: string)
    ensures SplitDataFile(name).1 == KindOf(name)
  {
  }
}
