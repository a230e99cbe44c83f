/** What a package holds once its archive has been parsed, said in terms of the names and contents of the entries. */
module PackageContents {
  import opened Basics
  import opened Ordering
  import opened Text
  import opened PathClean
  import opened ZipPackage

  // ---------- which entry is for what ----------

  /** What a data file's name may end in, in upper or lower case. */
  predicate DataSuffix(suffix: string, kind: Kind) {
    match kind
    case Input => ToLower(suffix) == ".in"
    case Output => ToLower(suffix) == ".out" || ToLower(suffix) == ".ans"
    case NoKind => false
  }

  predicate IsDataFile(name: string, stem: string, kind: Kind) {
    stem <= name && DataSuffix(name[|stem|..], kind)
  }

  predicate IsTestFile(name: string) {
    && "tests/" <= name
    && var rest := ToLower(name[|"tests/"|..]);
       HasSuffix(rest, ".in") || HasSuffix(rest, ".out") || HasSuffix(rest, ".ans")
  }

  /** The entry is the file that fills this place of a structured package. */
  predicate FileFor(e: Entry, slot: Slot) {
    && !e.isDir && SafeZipPath(e.name).Ok?
    && var name := SafeZipPath(e.name).value;
       match slot
       case ManifestSlot => name == "problem.json"
       case StatementSlot(locale) => name == "statements/" + locale + ".md"
       case SampleInput(sample) => IsDataFile(name, "samples/" + sample, Input)
       case SampleOutput(sample) => IsDataFile(name, "samples/" + sample, Output)
       case _ => false
  }

  /** The last such entry. */
  function LastFor(entries: seq<Entry>, slot: Slot): (r: Option<Entry>)
    ensures r.Some? <==> exists i :: 0 <= i < |entries| && FileFor(entries[i], slot)
  {
    if entries == [] then None
    else if FileFor(entries[|entries| - 1], slot) then Some(entries[|entries| - 1])
    else LastFor(entries[..|entries| - 1], slot)
  }

  /** The content of the last such entry, or nothing. */
  function TextFor(entries: seq<Entry>, slot: Slot): string {
    match LastFor(entries, slot)
    case Some(Entry(_, _, Ok(text))) => text
    case _ => ""
  }

  /** The names of the test files, in the order of the entries. */
  function TestNames(entries: seq<Entry>): seq<string> {
    if entries == [] then []
    else
      var e := entries[|entries| - 1];
      TestNames(entries[..|entries| - 1])
      + if !e.isDir && SafeZipPath(e.name).Ok? && IsTestFile(SafeZipPath(e.name).value) then [SafeZipPath(e.name).value] else []
  }

  /** What the manifest files say, one read after the other into the same manifest. */
  function ReadManifests(reader: ManifestReader, entries: seq<Entry>): Option<Manifest> {
    if entries == [] then Some(Manifest("", 0, 0, "", ""))
    else
      var e := entries[|entries| - 1];
      match ReadManifests(reader, entries[..|entries| - 1])
      case None => None
      case Some(manifest) =>
        if !FileFor(e, ManifestSlot) then Some(manifest)
        else if e.content.Err? then None
        else reader(e.content.value, manifest)
  }

  // ---------- the parser's places ----------

  lemma SplitIsData(name: string)
    requires KindOf(name) != NoKind
    ensures IsDataFile(name, BeforeExtension(name), KindOf(name))
  {
    hide KindOf, BeforeExtension, ToLower;
    KindIsSuffix(name);
    StemOf(name);
    LowerSuffix(name, |BeforeExtension(name)|);
  }

  lemma DataSplits(name: string, stem: string, kind: Kind)
    requires IsDataFile(name, stem, kind)
    ensures KindOf(name) == kind && BeforeExtension(name) == stem
  {
    hide KindOf, BeforeExtension, ToLower;
    KindIsSuffix(name);
    LowerSuffix(name, |stem|);
    StemOf(name);
  }

  /** Splitting off the suffix of a data file gives the stem and the kind that its name spells. */
  lemma SplitIff(name: string, stem: string, kind: Kind)
    requires kind != NoKind
    ensures SplitDataFile(name) == (stem, kind) <==> IsDataFile(name, stem, kind)
  {
    hide KindOf, BeforeExtension, IsDataFile;
    if KindOf(name) != NoKind {
      SplitIsData(name);
    }
    if IsDataFile(name, stem, kind) {
      DataSplits(name, stem, kind);
    }
  }

  lemma LowerSuffix(s: string, n: nat)
    requires n <= |s|
    ensures ToLower(s)[n..] == ToLower(s[n..])
  {
  }

  lemma StatementIff(name: string, locale: string)
    ensures PlaceOf(name) == StatementFile(locale) <==> name == "statements/" + locale + ".md"
  {
    hide KindOf, SplitDataFile;
    if HasPrefix(name, STATEMENTS) && HasSuffix(name, MARKDOWN) {
      assert name[10] == '/' && name[|name| - 3] == '.' && name[|name| - 2] == 'm' && name[|name| - 1] == 'd';
      var rest := name[|STATEMENTS|..];
      assert rest[|rest| - 3..] == MARKDOWN;
      assert name == STATEMENTS + rest[..|rest| - 3] + MARKDOWN;
    }
    if name == STATEMENTS + locale + MARKDOWN {
      var rest := name[|STATEMENTS|..];
      assert rest == locale + MARKDOWN;
      assert name[|name| - 3..] == MARKDOWN;
    }
  }

  lemma NotUnder(name: string, other: string)
    requires (STATEMENTS <= name && (other == SAMPLES || other == TESTS)) || (SAMPLES <= name && other == TESTS)
    ensures !(other <= name)
  {
    assert name[0] == 's' && (STATEMENTS <= name ==> name[1] == 't') && (SAMPLES <= name ==> name[1] == 'a');
  }

  lemma SampleIff(name: string, sample: string, kind: Kind)
    requires kind != NoKind
    ensures PlaceOf(name) == SampleFile(sample, kind) <==> IsDataFile(name, "samples/" + sample, kind)
  {
    hide KindOf, ToLower, SplitDataFile;
    if SAMPLES <= name {
      var rest := name[|SAMPLES|..];
      if STATEMENTS <= name {
        NotUnder(name, SAMPLES);
      }
      SplitIff(rest, sample, kind);
      assert sample <= rest <==> SAMPLES + sample <= name;
      assert sample <= rest ==> rest[|sample|..] == name[|SAMPLES + sample|..];
    }
  }

  lemma TestIff(name: string)
    ensures PlaceOf(name) == TestFile <==> IsTestFile(name)
  {
    hide KindOf, ToLower, SplitDataFile;
    if TESTS <= name {
      if STATEMENTS <= name || SAMPLES <= name {
        NotUnder(name, TESTS);
      }
      KindIsSuffix(name[|TESTS|..]);
    }
  }

  lemma PlaceHolds(e: Entry, slot: Slot)
    requires !e.isDir && SafeZipPath(e.name).Ok? && SafeZipPath(e.name).value != "problem.json"
    ensures var name := SafeZipPath(e.name).value;
            FileFor(e, slot) <==>
              match slot
              case StatementSlot(locale) => PlaceOf(name) == StatementFile(locale)
              case SampleInput(sample) => PlaceOf(name) == SampleFile(sample, Input)
              case SampleOutput(sample) => PlaceOf(name) == SampleFile(sample, Output)
              case _ => false
  {
    hide SafeZipPath, PlaceOf, IsDataFile;
    var name := SafeZipPath(e.name).value;
    match slot
    case StatementSlot(locale) => StatementIff(name, locale);
    case SampleInput(sample) => SampleIff(name, sample, Input);
    case SampleOutput(sample) => SampleIff(name, sample, Output);
    case _ =>
  }

  lemma ManifestIsElsewhere(e: Entry, slot: Slot)
    requires SafeZipPath(e.name) == Ok("problem.json")
    ensures FileFor(e, slot) <==> !e.isDir && slot == ManifestSlot
  {
    hide SafeZipPath;
    var name := "problem.json";
    assert name[0] == 'p';
  }

  lemma NoFile(e: Entry, slot: Slot)
    requires e.isDir || SafeZipPath(e.name).Err?
    ensures !FileFor(e, slot)
  {
  }

  /** What the parser does with an entry is to read it into the place it is for. */
  lemma EffectIff(e: Entry, slot: Slot)
    ensures (StructuredEffect(e).Fills? && StructuredEffect(e).claim.slot == slot) <==> FileFor(e, slot) && e.content.Ok?
    ensures FileFor(e, slot) ==>
              StructuredEffect(e) == match e.content
                                     case Ok(text) => Fills(Claim(slot, text))
                                     case Err(reason) => Fails(Unreadable(reason))
  {
    hide SafeZipPath, PlaceOf, FileFor;
    if SafeZipPath(e.name).Ok? && !e.isDir {
      if SafeZipPath(e.name).value == "problem.json" {
        ManifestIsElsewhere(e, slot);
      } else {
        PlaceHolds(e, slot);
      }
    } else {
      NoFile(e, slot);
    }
  }

  lemma ListsTestIff(e: Entry, name: string)
    ensures StructuredEffect(e) == ListsTest(name) <==> !e.isDir && SafeZipPath(e.name) == Ok(name) && IsTestFile(name)
  {
    hide SafeZipPath, PlaceOf, IsTestFile;
    TestIff(name);
    if name == "problem.json" {
      ManifestIsNoTest();
    }
  }

  lemma ManifestIsNoTest()
    ensures !IsTestFile("problem.json")
  {
    assert "problem.json"[0] == 'p';
  }

  /** The entry cannot be used: its name leaves the archive, or it is for a place and cannot be read. */
  ghost predicate Unusable(e: Entry) {
    SafeZipPath(e.name).Err? || (e.content.Err? && exists slot :: FileFor(e, slot))
  }

  lemma FailsIff(e: Entry)
    ensures StructuredEffect(e).Fails? <==> Unusable(e)
  {
    if slot :| FileFor(e, slot) && e.content.Err? {
      EffectIff(e, slot);
    }
    if StructuredEffect(e).Fails? && SafeZipPath(e.name).Ok? {
      var slot := SlotOfFailure(e);
    }
  }

  lemma SlotOfFailure(e: Entry) returns (slot: Slot)
    requires StructuredEffect(e).Fails? && SafeZipPath(e.name).Ok?
    ensures FileFor(e, slot) && e.content.Err?
  {
    hide SafeZipPath, PlaceOf, FileFor;
    var name := SafeZipPath(e.name).value;
    if name == "problem.json" {
      slot := ManifestSlot;
      ManifestIsElsewhere(e, slot);
    } else {
      slot := match PlaceOf(name)
              case StatementFile(locale) => StatementSlot(locale)
              case SampleFile(sample, Input) => SampleInput(sample)
              case SampleFile(sample, _) => SampleOutput(sample)
              case _ => ManifestSlot;
      PlaceHolds(e, slot);
    }
  }

  // ---------- over all entries ----------

  lemma MapPrefix(f: Entry -> Effect, entries: seq<Entry>)
    requires entries != []
    ensures Map(f, entries)[..|entries| - 1] == Map(f, entries[..|entries| - 1])
  {
  }

  /** What has been read for a place is the content of the last entry for it. */
  lemma {:induction false} ClaimsAreLast(entries: seq<Entry>, slot: Slot)
    requires FirstError(Map(StructuredEffect, entries)).None?
    ensures slot in Claims(Map(StructuredEffect, entries)) <==> LastFor(entries, slot).Some?
    ensures LastFor(entries, slot).Some? ==> LastFor(entries, slot).value.content == Ok(Claims(Map(StructuredEffect, entries))[slot])
    ensures Get(Claims(Map(StructuredEffect, entries)), slot) == TextFor(entries, slot)
  {
    hide StructuredEffect, FileFor;
    if entries != [] {
      var n := |entries| - 1;
      MapPrefix(StructuredEffect, entries);
      ClaimsAreLast(entries[..n], slot);
      EffectIff(entries[n], slot);
    }
  }

  lemma {:induction false} TestsAreNamed(entries: seq<Entry>)
    ensures Tests(Map(StructuredEffect, entries)) == TestNames(entries)
  {
    hide StructuredEffect, SafeZipPath, IsTestFile;
    if entries != [] {
      var n := |entries| - 1;
      MapPrefix(StructuredEffect, entries);
      TestsAreNamed(entries[..n]);
      if SafeZipPath(entries[n].name).Ok? {
        ListsTestIff(entries[n], SafeZipPath(entries[n].name).value);
      }
      if StructuredEffect(entries[n]).ListsTest? {
        ListsTestIff(entries[n], StructuredEffect(entries[n]).name);
      }
    }
  }

  lemma {:induction false} ManifestIsRead(reader: ManifestReader, entries: seq<Entry>)
    ensures ManifestAfter(reader, Map(StructuredEffect, entries)).Ok? <==>
              (forall e | e in entries :: !Unusable(e)) && ReadManifests(reader, entries).Some?
    ensures ManifestAfter(reader, Map(StructuredEffect, entries)).Ok? ==>
              ManifestAfter(reader, Map(StructuredEffect, entries)).value == ReadManifests(reader, entries).value
  {
    hide StructuredEffect, FileFor, Unusable;
    if entries != [] {
      var n := |entries| - 1;
      MapPrefix(StructuredEffect, entries);
      ManifestIsRead(reader, entries[..n]);
      assert entries == entries[..n] + [entries[n]];
      FailsIff(entries[n]);
      EffectIff(entries[n], ManifestSlot);
    }
  }

  lemma {:induction false} ReadMeansNoError(reader: ManifestReader, effects: seq<Effect>)
    requires ManifestAfter(reader, effects).Ok?
    ensures FirstError(effects).None?
  {
    if effects != [] {
      ReadMeansNoError(reader, effects[..|effects| - 1]);
    }
  }

  // ---------- a structured package ----------

  /** One statement for each locale that has a file, with the content of the last such file. */
  ghost predicate StatementsAre(entries: seq<Entry>, statements: map<string, string>) {
    forall locale ::
      && (locale in statements <==> LastFor(entries, StatementSlot(locale)).Some?)
      && (locale in statements ==> statements[locale] == TextFor(entries, StatementSlot(locale)))
  }

  /** One sample for each name with text for both its files, in the order of the names, each text in its place. */
  ghost predicate SamplesAre(entries: seq<Entry>, samples: seq<Sample>) {
    && (forall i, j | 0 <= i < j < |samples| :: StringLess(samples[i].name, samples[j].name))
    && (forall i | 0 <= i < |samples| ::
          && samples[i].input == TextFor(entries, SampleInput(samples[i].name)) != ""
          && samples[i].output == TextFor(entries, SampleOutput(samples[i].name)) != "")
    && (forall name | TextFor(entries, SampleInput(name)) != "" && TextFor(entries, SampleOutput(name)) != "" ::
          exists i :: 0 <= i < |samples| && samples[i].name == name)
  }

  lemma StatementsFromClaims(entries: seq<Entry>)
    requires FirstError(Map(StructuredEffect, entries)).None?
    ensures StatementsAre(entries, StatementsOf(Claims(Map(StructuredEffect, entries))))
  {
    hide StructuredEffect, FileFor;
    var claims := Claims(Map(StructuredEffect, entries));
    forall locale
      ensures locale in StatementsOf(claims) <==> LastFor(entries, StatementSlot(locale)).Some?
      ensures locale in StatementsOf(claims) ==> StatementsOf(claims)[locale] == TextFor(entries, StatementSlot(locale))
    {
      ClaimsAreLast(entries, StatementSlot(locale));
      if StatementSlot(locale) in claims {
        assert StatementSlot(locale).locale == locale;
      }
    }
  }

  lemma CompleteIff(entries: seq<Entry>, name: string)
    requires FirstError(Map(StructuredEffect, entries)).None?
    ensures name in CompleteSamples(Claims(Map(StructuredEffect, entries)))
       <==> TextFor(entries, SampleInput(name)) != "" && TextFor(entries, SampleOutput(name)) != ""
  {
    hide StructuredEffect, FileFor;
    ClaimsAreLast(entries, SampleInput(name));
    ClaimsAreLast(entries, SampleOutput(name));
    if SampleInput(name) in Claims(Map(StructuredEffect, entries)) {
      assert SampleInput(name).name == name;
    }
  }

  lemma CompleteTexts(entries: seq<Entry>, name: string)
    requires FirstError(Map(StructuredEffect, entries)).None?
    requires name in CompleteSamples(Claims(Map(StructuredEffect, entries)))
    ensures var claims := Claims(Map(StructuredEffect, entries));
            && Get(claims, SampleInput(name)) == TextFor(entries, SampleInput(name)) != ""
            && Get(claims, SampleOutput(name)) == TextFor(entries, SampleOutput(name)) != ""
  {
    hide StructuredEffect, FileFor, CompleteSamples, Get, TextFor;
    CompleteIff(entries, name);
    ClaimsAreLast(entries, SampleInput(name));
    ClaimsAreLast(entries, SampleOutput(name));
  }

  lemma SamplesFromNames(entries: seq<Entry>, names: seq<string>, claims: map<Slot, string>)
    requires Chain(StringLess, names)
    requires forall name :: name in names <==>
               TextFor(entries, SampleInput(name)) != "" && TextFor(entries, SampleOutput(name)) != ""
    requires forall name | name in names ::
               && Get(claims, SampleInput(name)) == TextFor(entries, SampleInput(name))
               && Get(claims, SampleOutput(name)) == TextFor(entries, SampleOutput(name))
    ensures SamplesAre(entries, SampleCases(names, claims))
  {
    hide TextFor, Get, StringLess;
    var samples := SampleCases(names, claims);
    forall i | 0 <= i < |samples|
      ensures samples[i].input == TextFor(entries, SampleInput(samples[i].name)) != ""
      ensures samples[i].output == TextFor(entries, SampleOutput(samples[i].name)) != ""
    {
      assert names[i] in names;
    }
    forall name | TextFor(entries, SampleInput(name)) != "" && TextFor(entries, SampleOutput(name)) != ""
      ensures exists i :: 0 <= i < |samples| && samples[i].name == name
    {
      NamedSample(names, claims, name);
    }
  }

  lemma SamplesFromClaims(entries: seq<Entry>)
    requires FirstError(Map(StructuredEffect, entries)).None?
    ensures var claims := Claims(Map(StructuredEffect, entries));
            SamplesAre(entries, SampleCases(SortedStems(CompleteSamples(claims)), claims))
  {
    hide StructuredEffect, FileFor, CompleteSamples, Claims, Get, TextFor, StringLess, SamplesAre;
    var claims := Claims(Map(StructuredEffect, entries));
    var names := SortedStems(CompleteSamples(claims));
    StringLessIsStrictOrder(CompleteSamples(claims));
    SortDistinct(StringLess, Enumerate(CompleteSamples(claims)));
    forall name
      ensures name in names <==> TextFor(entries, SampleInput(name)) != "" && TextFor(entries, SampleOutput(name)) != ""
      ensures name in names ==>
                && Get(claims, SampleInput(name)) == TextFor(entries, SampleInput(name))
                && Get(claims, SampleOutput(name)) == TextFor(entries, SampleOutput(name))
    {
      assert name in names <==> name in Elements(names);
      CompleteIff(entries, name);
      if name in names {
        CompleteTexts(entries, name);
      }
    }
    SamplesFromNames(entries, names, claims);
  }

  lemma NamedSample(names: seq<string>, claims: map<Slot, string>, name: string)
    requires name in names
    ensures exists i :: 0 <= i < |names| && SampleCases(names, claims)[i].name == name
  {
    var i :| 0 <= i < |names| && names[i] == name;
    assert SampleCases(names, claims)[i].name == name;
  }

  lemma TestsFromEffects(entries: seq<Entry>)
    ensures SortedBy(StringLess, Sort(StringLess, Tests(Map(StructuredEffect, entries))))
    ensures multiset(Sort(StringLess, Tests(Map(StructuredEffect, entries)))) == multiset(TestNames(entries))
  {
    TestsAreNamed(entries);
    StringLessIsStrictOrder(Elements(TestNames(entries)));
    SortSorts(StringLess, TestNames(entries));
  }

  /**
    When an archive in the structured layout is accepted, and what the package then holds: the manifest,
    one statement per locale, one sample per name with both texts, and the sorted names of the test files.
   */
  lemma StructuredPackage(reader: ManifestReader, filename: string, entries: seq<Entry>, metadata: FlatMetadata)
    requires IsStructured(entries)
    ensures Parse(reader, filename, entries, metadata).Ok? <==>
              (forall e | e in entries :: !Unusable(e)) && ReadManifests(reader, entries).Some?
    ensures Parse(reader, filename, entries, metadata).Ok? ==>
              var package := Parse(reader, filename, entries, metadata).value;
              && package.sourceFilename == filename && package.manifest == ReadManifests(reader, entries).value
              && StatementsAre(entries, package.statements)
              && SamplesAre(entries, package.samples)
              && SortedBy(StringLess, package.testFiles) && multiset(package.testFiles) == multiset(TestNames(entries))
  {
    hide StructuredEffect, Unusable, StatementsAre, SamplesAre, StatementsOf, SampleCases, SortedBy;
    ManifestIsRead(reader, entries);
    if ManifestAfter(reader, Map(StructuredEffect, entries)).Ok? {
      ReadMeansNoError(reader, Map(StructuredEffect, entries));
      StatementsFromClaims(entries);
      SamplesFromClaims(entries);
      TestsFromEffects(entries);
    }
  }

  // ---------- a flat package ----------

  /** The problem statement of the flat layout. */
  predicate RootStatement(e: Entry) {
    !e.isDir && SafeZipPath(e.name) == Ok("statement.md")
  }

  /** The content of the last one, or nothing. */
  function StatementText(entries: seq<Entry>): string {
    if entries == [] then ""
    else
      var e := entries[|entries| - 1];
      if RootStatement(e) then (if e.content.Ok? then e.content.value else "") else StatementText(entries[..|entries| - 1])
  }

  ghost predicate UnusableAtRoot(e: Entry) {
    SafeZipPath(e.name).Err? || (RootStatement(e) && e.content.Err?)
  }

  lemma FlatStatementIff(e: Entry)
    ensures FlatEffect(e).Fails? <==> UnusableAtRoot(e)
    ensures !FlatEffect(e).Fails? ==>
              (FlatEffect(e).Fills? && FlatEffect(e).claim.slot == StatementSlot("zh-CN") <==> RootStatement(e))
    ensures RootStatement(e) && e.content.Ok? ==> FlatEffect(e) == Fills(Claim(StatementSlot("zh-CN"), e.content.value))
  {
    hide SafeZipPath, SplitDataFile;
    assert '/' !in "statement.md";
  }

  lemma {:induction false} FlatStatementIsLast(entries: seq<Entry>)
    ensures FirstError(Map(FlatEffect, entries)).None? <==> forall e | e in entries :: !UnusableAtRoot(e)
    ensures FirstError(Map(FlatEffect, entries)).None? ==>
              Get(Claims(Map(FlatEffect, entries)), StatementSlot("zh-CN")) == StatementText(entries)
  {
    hide FlatEffect, RootStatement, UnusableAtRoot;
    if entries != [] {
      var n := |entries| - 1;
      MapPrefix(FlatEffect, entries);
      FlatStatementIsLast(entries[..n]);
      assert entries == entries[..n] + [entries[n]];
      FlatStatementIff(entries[n]);
      if !UnusableAtRoot(entries[n]) {
        UsableHasText(entries[n]);
      }
    }
  }

  lemma UsableHasText(e: Entry)
    requires !UnusableAtRoot(e)
    ensures RootStatement(e) ==> e.content.Ok?
  {
  }

  /**
    When an archive in the flat layout is accepted, and what the package then holds beside its test files:
    the caller's metadata with the defaults filled in, and the one statement.
   */
  lemma FlatPackage(reader: ManifestReader, filename: string, entries: seq<Entry>, metadata: FlatMetadata)
    requires !IsStructured(entries)
    ensures Parse(reader, filename, entries, metadata).Ok? <==>
              (forall e | e in entries :: !UnusableAtRoot(e)) && TrimSpace(StatementText(entries)) != ""
    ensures (forall e | e in entries :: !UnusableAtRoot(e)) && TrimSpace(StatementText(entries)) == "" ==>
              Parse(reader, filename, entries, metadata) == Err(StatementMissing)
    ensures Parse(reader, filename, entries, metadata).Ok? ==>
              var package := Parse(reader, filename, entries, metadata).value;
              && package.sourceFilename == filename && package.samples == []
              && package.statements == map["zh-CN" := StatementText(entries)]
              && package.manifest.title == TrimSpace(metadata.title)
              && package.manifest.timeLimit == (if metadata.timeLimit < 1 then 1000 else metadata.timeLimit)
              && package.manifest.memoryLimit == (if metadata.memoryLimit < 1 then 256 else metadata.memoryLimit)
              && package.manifest.problemType == package.manifest.judgeType
              && package.manifest.judgeType
              == (if metadata.judgeType in {"special_judge", "interactive"} then metadata.judgeType else "traditional")
  {
    hide FlatEffect, UnusableAtRoot, TrimSpace, Pairs, PairedStems, SortedStems;
    FlatStatementIsLast(entries);
    BlankIsBlank();
  }

  lemma BlankIsBlank()
    ensures TrimSpace("") == ""
  {
  }

  // ---------- which layout ----------

  /** From `n` on, where a name begins, the path reads `problem.json`, and then at most slashes. */
  ghost predicate ManifestAt(path: string, n: nat) {
    var end := n + |"problem.json"|;
    && (n == 0 || (n <= |path| && path[n - 1] == '/'))
    && end <= |path| && path[n..end] == "problem.json"
    && forall i | end <= i < |path| :: path[i] == '/'
  }

  lemma {:induction false} TrimmedSlashes(s: string)
    ensures var t := WithoutTrailingSlashes(s);
            && t <= s && (forall i | |t| <= i < |s| :: s[i] == '/') && (t == "" || t[|t| - 1] != '/')
  {
    if s != "" && s[|s| - 1] == '/' {
      TrimmedSlashes(s[..|s| - 1]);
    }
  }

  lemma {:induction false} AfterSlash(s: string) returns (front: string)
    ensures s == front + AfterLastSlash(s) && '/' !in AfterLastSlash(s)
    ensures front == "" || front[|front| - 1] == '/'
  {
    var n := |s| - 1;
    if s != "" && s[n] != '/' {
      front := AfterSlash(s[..n]);
      assert s == s[..n] + [s[n]];
      assert front + (AfterLastSlash(s[..n]) + [s[n]]) == front + AfterLastSlash(s[..n]) + [s[n]];
    } else {
      front := s;
    }
  }

  /** The last name of the path is `problem.json`: trailing slashes do not count, and backslashes are slashes. */
  lemma NamesManifestIff(e: Entry)
    ensures NamesManifest(e) <==> exists n: nat :: ManifestAt(ReplaceBackslashes(e.name), n)
  {
    hide ReplaceBackslashes;
    BaseIff(ReplaceBackslashes(e.name));
  }

  lemma BaseIff(path: string)
    ensures Base(path) == "problem.json" <==> exists n: nat :: ManifestAt(path, n)
  {
    hide WithoutTrailingSlashes, AfterLastSlash, ManifestAt;
    TrimmedSlashes(path);
    var t := WithoutTrailingSlashes(path);
    var front := AfterSlash(t);
    if Base(path) == "problem.json" {
      ManifestThere(path, front, t);
    }
    if n: nat :| ManifestAt(path, n) {
      ManifestFound(path, t, front, AfterLastSlash(t), n);
    }
  }

  lemma ManifestThere(path: string, front: string, t: string)
    requires t <= path && t == front + "problem.json" && (forall i | |t| <= i < |path| :: path[i] == '/')
    requires front == "" || front[|front| - 1] == '/'
    ensures ManifestAt(path, |front|)
  {
    assert path[..|t|] == t;
  }

  lemma ManifestFound(path: string, t: string, front: string, last: string, n: nat)
    requires ManifestAt(path, n)
    requires t <= path && (forall i | |t| <= i < |path| :: path[i] == '/') && (t == "" || t[|t| - 1] != '/')
    requires t == front + last && '/' !in last && (front == "" || front[|front| - 1] == '/')
    ensures t != "" && last == "problem.json"
  {
    var name := "problem.json";
    var end := n + |name|;
    assert forall i | n <= i < end :: path[i] == path[n..end][i - n] == name[i - n] != '/';
    assert path[end - 1] != '/';
    assert |t| == end;
    assert t == path[..end];
    assert forall i | |front| <= i < end :: path[i] == t[i] == last[i - |front|] && last[i - |front|] in last;
    assert front != "" ==> path[|front| - 1] == front[|front| - 1];
    assert |front| == n;
  }
}
