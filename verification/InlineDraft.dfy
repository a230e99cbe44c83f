/** Problem drafts typed into a form: their test cases become stored objects under generated keys. */
module InlineDraft {
  import opened Basics
  import opened Ordering
  import opened PackageFields
  import opened Text
  import ZipPackage

  datatype TestCase = TestCase(inputText: string, outputText: string, inputKey: string, outputKey: string)

  datatype Extension = In | Out

  /** A key that was generated, with the parts it was made of and the text it is for. */
  datatype Generated = Generated(number: nat, extension: Extension, caseId: string, text: string)

  datatype DraftError =
    | ActorRequired
    | TitleRequired
    | StatementRequired
    | InputRequired(number: nat)
    | OutputRequired(number: nat)
    | WriteFailed

  datatype DraftInput = DraftInput(
    actorId: string, title: string, statement: string, locale: string,
    timeLimit: int, memoryLimit: int, judgeType: string, cases: seq<TestCase>)

  datatype Draft = Draft(
    owner: string, title: string, locale: string, statement: string,
    timeLimit: int, memoryLimit: int, judgeType: string, testFiles: seq<string>)

  function ExtensionText(e: Extension): string {
    if e == In then "in" else "out"
  }

  /** The part of a key after its last slash. */
  function FileName(number: nat, e: Extension): string {
    PadThree(number) + "." + ExtensionText(e)
  }

  /** `inlineTestObjectKey`, for a directory that carries the sanitised actor. */
  function ObjectKey(directory: string, g: Generated): string {
    directory + "/inline/" + g.caseId + "/" + FileName(g.number, g.extension)
  }

  // ---------- keys differ ----------

  lemma {:induction false} SameTail(p: string, q: string, s: string, t: string)
    requires '/' !in s && '/' !in t
    requires p + "/" + s == q + "/" + t
    ensures s == t
  {
    var all := p + "/" + s;
    assert all[|p|] == '/' && all[|q|] == '/';
    assert forall i | |p| < i < |all| :: all[i] == s[i - |p| - 1] && s[i - |p| - 1] in s;
    assert forall i | |q| < i < |all| :: all[i] == t[i - |q| - 1] && t[i - |q| - 1] in t;
    assert |p| == |q|;
    assert all[|p| + 1..] == s && all[|q| + 1..] == t;
  }

  lemma {:induction false} SameStem(s: string, t: string, x: string, y: string)
    requires '.' !in s && '.' !in t && s + "." + x == t + "." + y
    ensures s == t && x == y
  {
    var all := s + "." + x;
    assert all[|s|] == '.' && all[|t|] == '.';
    assert forall i | 0 <= i < |s| :: all[i] == s[i] && s[i] in s;
    assert forall i | 0 <= i < |t| :: all[i] == t[i] && t[i] in t;
    assert |s| == |t|;
    assert all[..|s|] == s && all[..|t|] == t;
    assert all[|s| + 1..] == x && all[|t| + 1..] == y;
  }

  /** "%03d.ext" determines the number and the extension. */
  lemma FileNameInjective(m: nat, e: Extension, n: nat, f: Extension)
    requires FileName(m, e) == FileName(n, f)
    ensures m == n && e == f
  {
    PadThreeDigits(m);
    PadThreeDigits(n);
    SameStem(PadThree(m), PadThree(n), ExtensionText(e), ExtensionText(f));
    assert |ExtensionText(In)| == 2 && |ExtensionText(Out)| == 3;
  }

  /** Whatever ids the generator hands out, keys for different numbers or extensions differ. */
  lemma KeysDiffer(directory: string, g: Generated, h: Generated)
    requires ObjectKey(directory, g) == ObjectKey(directory, h)
    ensures g.number == h.number && g.extension == h.extension
  {
    PadThreeDigits(g.number);
    PadThreeDigits(h.number);
    SameTail(directory + "/inline/" + g.caseId, directory + "/inline/" + h.caseId,
             FileName(g.number, g.extension), FileName(h.number, h.extension));
    FileNameInjective(g.number, g.extension, h.number, h.extension);
  }

  // ---------- what the keys of one draft look like ----------

  function TextOf(c: TestCase, e: Extension): string {
    if e == In then c.inputText else c.outputText
  }

  /** The key given for a file, empty when its text is to be stored under a generated one. */
  function GivenKey(c: TestCase, e: Extension): string {
    if e == In then c.inputKey else c.outputKey
  }

  /** Keys are read without the white space around them. */
  function Trimmed(c: TestCase): TestCase {
    c.(inputKey := TrimSpace(c.inputKey), outputKey := TrimSpace(c.outputKey))
  }

  predicate Provided(c: TestCase, e: Extension) {
    TrimSpace(TextOf(c, e)) != "" || GivenKey(c, e) != ""
  }

  /** The place of a file in the draft: cases in order, input before output. */
  function Rank(number: nat, e: Extension): nat {
    2 * number + if e == In then 0 else 1
  }

  function RankOf(g: Generated): nat {
    Rank(g.number, g.extension)
  }

  /** Every generated key belongs to a file of the first `count` cases that was given without a key. */
  ghost predicate FromCases(cases: seq<TestCase>, count: nat, generated: seq<Generated>) {
    forall g | g in generated :: g.number <= count && FromCase(cases, g)
  }

  ghost predicate FromCase(cases: seq<TestCase>, g: Generated) {
    1 <= g.number <= |cases| && FromFile(cases[g.number - 1], g)
  }

  ghost predicate FromFile(c: TestCase, g: Generated) {
    GivenKey(c, g.extension) == "" && g.text == TextOf(c, g.extension)
  }

  /** No file has two generated keys, and they were generated in the order of the files. */
  ghost predicate InOrder(generated: seq<Generated>) {
    forall i, j | 0 <= i < j < |generated| :: RankOf(generated[i]) < RankOf(generated[j])
  }

  /** `key` is the one that stands for this file: the given one, or the one generated for it. */
  ghost predicate KeyFor(directory: string, c: TestCase, number: nat, e: Extension, key: string, generated: seq<Generated>) {
    if GivenKey(c, e) != "" then key == GivenKey(c, e)
    else exists g :: g in generated && g.number == number && g.extension == e && key == ObjectKey(directory, g)
  }

  /** Two entries per case, in order. */
  ghost predicate Listed(directory: string, cases: seq<TestCase>, count: nat, files: seq<string>, generated: seq<Generated>) {
    && count <= |cases| && |files| == 2 * count
    && forall k {:trigger ListedCase(directory, cases, k, files, generated)} | 0 <= k < count ::
         ListedCase(directory, cases, k, files, generated)
  }

  ghost predicate ListedCase(directory: string, cases: seq<TestCase>, k: nat, files: seq<string>, generated: seq<Generated>)
    requires k < |cases| && 2 * k + 1 < |files|
  {
    && KeyFor(directory, cases[k], k + 1, In, files[2 * k], generated)
    && KeyFor(directory, cases[k], k + 1, Out, files[2 * k + 1], generated)
  }

  // ---------- storing the texts ----------

  datatype Write = Write(key: string, text: string)

  function PutAll(objects: map<string, string>, writes: seq<Write>): map<string, string> {
    if writes == [] then objects
    else
      var last := writes[|writes| - 1];
      PutAll(objects, writes[..|writes| - 1])[last.key := last.text]
  }

  function Writes(directory: string, generated: seq<Generated>): (writes: seq<Write>)
    ensures |writes| == |generated|
    ensures forall i | 0 <= i < |generated| :: writes[i] == Write(ObjectKey(directory, generated[i]), generated[i].text)
  {
    Map(g => Write(ObjectKey(directory, g), g.text), generated)
  }

  /** The objects after the texts have been written one after the other. */
  function Written(objects: map<string, string>, directory: string, generated: seq<Generated>): map<string, string> {
    PutAll(objects, Writes(directory, generated))
  }

  lemma {:induction false} PutAllTwice(objects: map<string, string>, first: seq<Write>, second: seq<Write>)
    ensures PutAll(objects, first + second) == PutAll(PutAll(objects, first), second)
  {
    if second == [] {
      assert first + second == first;
    } else {
      var n := |second| - 1;
      assert (first + second)[..|first| + n] == first + second[..n];
      PutAllTwice(objects, first, second[..n]);
    }
  }

  lemma {:induction false} PutAllKeeps(objects: map<string, string>, writes: seq<Write>, i: nat)
    requires i < |writes| && forall j | i < j < |writes| :: writes[j].key != writes[i].key
    ensures writes[i].key in PutAll(objects, writes) && PutAll(objects, writes)[writes[i].key] == writes[i].text
  {
    if i < |writes| - 1 {
      PutAllKeeps(objects, writes[..|writes| - 1], i);
    }
  }

  lemma {:induction false} PutAllElsewhere(objects: map<string, string>, writes: seq<Write>, key: string)
    requires forall i | 0 <= i < |writes| :: writes[i].key != key
    ensures key in PutAll(objects, writes) <==> key in objects
    ensures key in objects ==> PutAll(objects, writes)[key] == objects[key]
  {
    if writes != [] {
      PutAllElsewhere(objects, writes[..|writes| - 1], key);
    }
  }

  lemma WrittenOnce(objects: map<string, string>, directory: string, g: Generated)
    ensures Written(objects, directory, []) == objects
    ensures Written(objects, directory, [g]) == objects[ObjectKey(directory, g) := g.text]
  {
    var writes := Writes(directory, [g]);
    assert writes[..0] == [] && writes[0] == Write(ObjectKey(directory, g), g.text);
  }

  lemma WrittenTwice(objects: map<string, string>, directory: string, generated: seq<Generated>, more: seq<Generated>)
    ensures Written(objects, directory, generated + more) == Written(Written(objects, directory, generated), directory, more)
  {
    assert Writes(directory, generated + more) == Writes(directory, generated) + Writes(directory, more);
    PutAllTwice(objects, Writes(directory, generated), Writes(directory, more));
  }

  /** The keys of one draft are pairwise distinct, whatever ids the generator hands out. */
  lemma KeysDistinct(directory: string, generated: seq<Generated>, i: nat, j: nat)
    requires InOrder(generated) && i < j < |generated|
    ensures ObjectKey(directory, generated[i]) != ObjectKey(directory, generated[j])
  {
    assert RankOf(generated[i]) < RankOf(generated[j]);
    if ObjectKey(directory, generated[i]) == ObjectKey(directory, generated[j]) {
      KeysDiffer(directory, generated[i], generated[j]);
    }
  }

  /** No write of a draft overwrites another: in the end each generated key holds the text it was made for. */
  lemma NothingOverwritten(objects: map<string, string>, directory: string, generated: seq<Generated>, i: nat)
    requires InOrder(generated) && i < |generated|
    ensures ObjectKey(directory, generated[i]) in Written(objects, directory, generated)
    ensures Written(objects, directory, generated)[ObjectKey(directory, generated[i])] == generated[i].text
  {
    var writes := Writes(directory, generated);
    forall j | i < j < |writes| ensures writes[j].key != writes[i].key {
      KeysDistinct(directory, generated, i, j);
    }
    PutAllKeeps(objects, writes, i);
  }

  /** Objects under other keys stay as they were. */
  lemma OthersUntouched(objects: map<string, string>, directory: string, generated: seq<Generated>, key: string)
    requires forall i | 0 <= i < |generated| :: key != ObjectKey(directory, generated[i])
    ensures key in Written(objects, directory, generated) <==> key in objects
    ensures key in objects ==> Written(objects, directory, generated)[key] == objects[key]
  {
    PutAllElsewhere(objects, Writes(directory, generated), key);
  }

  lemma KeyReadsBack(objects: map<string, string>, directory: string, cases: seq<TestCase>, k: nat, e: Extension,
                     key: string, generated: seq<Generated>)
    requires k < |cases| && FromCases(cases, |cases|, generated) && InOrder(generated)
    requires GivenKey(cases[k], e) == "" && KeyFor(directory, cases[k], k + 1, e, key, generated)
    ensures key in Written(objects, directory, generated)
    ensures Written(objects, directory, generated)[key] == TextOf(cases[k], e)
  {
    var g :| g in generated && g.number == k + 1 && g.extension == e && key == ObjectKey(directory, g);
    assert FromCase(cases, g);
    var i :| 0 <= i < |generated| && generated[i] == g;
    NothingOverwritten(objects, directory, generated, i);
  }

  /** Reading a file of a finished draft gives the text that was typed for it. */
  lemma FilesReadBack(objects: map<string, string>, directory: string, cases: seq<TestCase>, files: seq<string>,
                      generated: seq<Generated>, k: nat)
    requires Listed(directory, cases, |cases|, files, generated) && k < |cases|
    requires FromCases(cases, |cases|, generated) && InOrder(generated)
    ensures var after := Written(objects, directory, generated);
            && (GivenKey(cases[k], In) == "" ==> files[2 * k] in after && after[files[2 * k]] == cases[k].inputText)
            && (GivenKey(cases[k], Out) == "" ==> files[2 * k + 1] in after && after[files[2 * k + 1]] == cases[k].outputText)
  {
    assert ListedCase(directory, cases, k, files, generated);
    if GivenKey(cases[k], In) == "" {
      KeyReadsBack(objects, directory, cases, k, In, files[2 * k], generated);
    }
    if GivenKey(cases[k], Out) == "" {
      KeyReadsBack(objects, directory, cases, k, Out, files[2 * k + 1], generated);
    }
  }

  lemma KeyKind(directory: string, g: Generated)
    ensures ZipPackage.KindOf(ObjectKey(directory, g)) == if g.extension == In then ZipPackage.Input else ZipPackage.Output
  {
    var key := ObjectKey(directory, g);
    var n := |key|;
    assert key == directory + "/inline/" + g.caseId + "/" + PadThree(g.number) + ("." + ExtensionText(g.extension));
    if g.extension == In {
      assert key[n - 3..] == ".in";
      assert key[n - 3] == '.' && key[n - 2] == 'i' && key[n - 1] == 'n';
    } else {
      assert key[n - 4..] == ".out";
      assert key[n - 4] == '.' && key[n - 3] == 'o' && key[n - 2] == 'u' && key[n - 1] == 't';
    }
  }

  /** One case typed in full is enough for the draft to pass the import check for inputs and outputs. */
  lemma TypedCasePassesImportCheck(directory: string, cases: seq<TestCase>, files: seq<string>, generated: seq<Generated>, k: nat)
    requires Listed(directory, cases, |cases|, files, generated) && k < |cases|
    requires GivenKey(cases[k], In) == "" && GivenKey(cases[k], Out) == ""
    ensures ZipPackage.HasInputAndOutput(files)
  {
    assert ListedCase(directory, cases, k, files, generated);
    var g :| g in generated && g.extension == In && files[2 * k] == ObjectKey(directory, g);
    var h :| h in generated && h.extension == Out && files[2 * k + 1] == ObjectKey(directory, h);
    KeyKind(directory, g);
    KeyKind(directory, h);
  }

  /** Writing is reliable or not, and what is written stays until the key is written again. */
  class TextStore {
    var objects: map<string, string>

    constructor ()
      ensures objects == map[]
    {
      objects := map[];
    }

    method PutText(key: string, text: string) returns (ok: bool)
      modifies this
      ensures objects == if ok then old(objects)[key := text] else old(objects)
    {
      ok := *;
      if ok {
        objects := objects[key := text];
      }
    }
  }

  // ---------- the service ----------

  lemma KeyForStays(directory: string, c: TestCase, number: nat, e: Extension, key: string, generated: seq<Generated>, more: seq<Generated>)
    requires KeyFor(directory, c, number, e, key, generated)
    ensures KeyFor(directory, c, number, e, key, generated + more)
  {
    if GivenKey(c, e) == "" {
      var g :| g in generated && g.number == number && g.extension == e && key == ObjectKey(directory, g);
      assert g in generated + more;
    }
  }

  lemma KeyForJoins(directory: string, c: TestCase, number: nat, e: Extension, key: string, generated: seq<Generated>, more: seq<Generated>)
    requires KeyFor(directory, c, number, e, key, more)
    ensures KeyFor(directory, c, number, e, key, generated + more)
  {
    if GivenKey(c, e) == "" {
      var g :| g in more && g.number == number && g.extension == e && key == ObjectKey(directory, g);
      assert g in generated + more;
    }
  }

  lemma ListedCaseStays(directory: string, cases: seq<TestCase>, k: nat, files: seq<string>, generated: seq<Generated>,
                        inputKey: string, outputKey: string, more: seq<Generated>)
    requires k < |cases| && 2 * k + 1 < |files| && ListedCase(directory, cases, k, files, generated)
    ensures ListedCase(directory, cases, k, files + [inputKey, outputKey], generated + more)
  {
    KeyForStays(directory, cases[k], k + 1, In, files[2 * k], generated, more);
    KeyForStays(directory, cases[k], k + 1, Out, files[2 * k + 1], generated, more);
  }

  lemma ListedGrows(directory: string, cases: seq<TestCase>, count: nat, files: seq<string>, generated: seq<Generated>,
                    inputKey: string, outputKey: string, more: seq<Generated>)
    requires Listed(directory, cases, count, files, generated) && count < |cases|
    requires KeyFor(directory, cases[count], count + 1, In, inputKey, generated + more)
    requires KeyFor(directory, cases[count], count + 1, Out, outputKey, generated + more)
    ensures Listed(directory, cases, count + 1, files + [inputKey, outputKey], generated + more)
  {
    var longer := files + [inputKey, outputKey];
    forall k | 0 <= k < count + 1 ensures ListedCase(directory, cases, k, longer, generated + more) {
      if k < count {
        assert ListedCase(directory, cases, k, files, generated);
        ListedCaseStays(directory, cases, k, files, generated, inputKey, outputKey, more);
      } else {
        assert longer[2 * k] == inputKey && longer[2 * k + 1] == outputKey;
      }
    }
  }

  lemma CaseInOrder(cases: seq<TestCase>, count: nat, generated: seq<Generated>, more: seq<Generated>)
    requires FromCases(cases, count, generated) && InOrder(generated) && count < |cases|
    requires InOrder(more) && forall g | g in more :: g.number == count + 1 && FromFile(cases[count], g)
    ensures FromCases(cases, count + 1, generated + more) && InOrder(generated + more)
  {
    var all := generated + more;
    forall g | g in all ensures g.number <= count + 1 && FromCase(cases, g) {
      assert g in generated || g in more;
    }
    forall i, j | 0 <= i < j < |all| ensures RankOf(all[i]) < RankOf(all[j]) {
      assert all[i] == if i < |generated| then generated[i] else more[i - |generated|];
      assert all[j] == if j < |generated| then generated[j] else more[j - |generated|];
      assert i < |generated| ==> all[i] in generated;
      assert j >= |generated| ==> all[j] in more;
    }
  }

  predicate Complete(c: TestCase) {
    Provided(c, In) && Provided(c, Out)
  }

  ghost predicate AllComplete(cases: seq<TestCase>, count: nat) {
    count <= |cases| && forall k | 0 <= k < count :: Complete(cases[k])
  }

  /** Why one case was refused: its input is looked at before its output, and both before anything is written. */
  predicate CaseRefusal(c: TestCase, number: nat, error: DraftError, writes: bool) {
    match error
    case InputRequired(n) => n == number && !Provided(c, In)
    case OutputRequired(n) => n == number && Provided(c, In) && !Provided(c, Out)
    case WriteFailed => writes && Complete(c)
    case _ => false
  }

  /** The first case that is refused decides. */
  ghost predicate Refusal(cases: seq<TestCase>, error: DraftError, writes: bool) {
    exists k :: 0 <= k < |cases| && AllComplete(cases, k) && CaseRefusal(cases[k], k + 1, error, writes)
  }

  function MissingHeader(input: DraftInput): Option<DraftError> {
    if TrimSpace(input.actorId) == "" then Some(ActorRequired)
    else if TrimSpace(input.title) == "" then Some(TitleRequired)
    else if TrimSpace(input.statement) == "" then Some(StatementRequired)
    else None
  }

  /** The statement is kept as it was typed. */
  function DraftOf(input: DraftInput, testFiles: seq<string>): Draft {
    var locale := TrimSpace(input.locale);
    Draft(TrimSpace(input.actorId), TrimSpace(input.title), if locale == "" then "zh-CN" else locale, input.statement,
          DefaultPositive(input.timeLimit, 1000), DefaultPositive(input.memoryLimit, 256),
          NormalizeProblemType(input.judgeType), testFiles)
  }

  /** The file of a draft: the key that was given, trimmed; without one, the typed text is stored under it as it is. */
  ghost predicate FileStored(writer: TextStore?, givenKey: string, text: string, file: string)
    reads writer
  {
    if TrimSpace(givenKey) != "" then file == TrimSpace(givenKey)
    else writer != null ==> file in writer.objects && writer.objects[file] == text
  }

  lemma AllListed(directory: string, cases: seq<TestCase>, files: seq<string>, generated: seq<Generated>)
    requires Listed(directory, Map(Trimmed, cases), |cases|, files, generated)
    ensures |files| == 2 * |cases|
    ensures forall k | 0 <= k < |cases| ::
              && (TrimSpace(cases[k].inputKey) != "" ==> files[2 * k] == TrimSpace(cases[k].inputKey))
              && (TrimSpace(cases[k].outputKey) != "" ==> files[2 * k + 1] == TrimSpace(cases[k].outputKey))
  {
    forall k | 0 <= k < |cases|
      ensures TrimSpace(cases[k].inputKey) != "" ==> files[2 * k] == TrimSpace(cases[k].inputKey)
      ensures TrimSpace(cases[k].outputKey) != "" ==> files[2 * k + 1] == TrimSpace(cases[k].outputKey)
    {
      assert ListedCase(directory, Map(Trimmed, cases), k, files, generated);
    }
  }

  lemma AllStored(objects: map<string, string>, writer: TextStore, directory: string, cases: seq<TestCase>,
                  files: seq<string>, generated: seq<Generated>)
    requires Listed(directory, Map(Trimmed, cases), |cases|, files, generated)
    requires FromCases(Map(Trimmed, cases), |cases|, generated) && InOrder(generated)
    requires writer.objects == Written(objects, directory, generated)
    ensures |files| == 2 * |cases|
    ensures forall k | 0 <= k < |cases| ::
              && FileStored(writer, cases[k].inputKey, cases[k].inputText, files[2 * k])
              && FileStored(writer, cases[k].outputKey, cases[k].outputText, files[2 * k + 1])
  {
    hide Written;
    AllListed(directory, cases, files, generated);
    forall k | 0 <= k < |cases|
      ensures FileStored(writer, cases[k].inputKey, cases[k].inputText, files[2 * k])
      ensures FileStored(writer, cases[k].outputKey, cases[k].outputText, files[2 * k + 1])
    {
      FilesReadBack(objects, directory, Map(Trimmed, cases), files, generated, k);
    }
  }

  class Service {
    const writer: TextStore?

    constructor (writer: TextStore?)
      ensures this.writer == writer
    {
      this.writer := writer;
    }

    /** The id generator: nothing is known about its ids, they may all be equal. */
    method NewId() returns (id: string)
    {
      id := *;
    }

    method PutInlineText(key: string, text: string) returns (ok: bool)
      modifies writer
      ensures writer == null ==> ok
      ensures writer != null ==> writer.objects == if ok then old(writer.objects)[key := text] else old(writer.objects)
    {
      if writer == null {
        return true;
      }
      ok := writer.PutText(key, text);
    }

    /** A new key for one file of a case, with its text stored under it. */
    method StoreFile(directory: string, number: nat, e: Extension, text: string)
      returns (key: string, ok: bool, ghost g: Generated)
      modifies writer
      ensures writer == null ==> ok
      ensures g.number == number && g.extension == e && g.text == text && key == ObjectKey(directory, g)
      ensures writer != null ==> writer.objects == Written(old(writer.objects), directory, if ok then [g] else [])
    {
      var id := NewId();
      key := directory + "/inline/" + id + "/" + FileName(number, e);
      g := Generated(number, e, id, text);
      ok := PutInlineText(key, text);
      if writer != null {
        WrittenOnce(old(writer.objects), directory, g);
      }
    }

    /** The second half of `materializeInlineTestCase`: a key for each text that came without one. */
    method StoreMissing(directory: string, number: nat, c: TestCase)
      returns (r: Result<(string, string), DraftError>, ghost more: seq<Generated>)
      modifies writer
      ensures InOrder(more) && forall g | g in more :: g.number == number && FromFile(c, g)
      ensures writer != null ==> writer.objects == Written(old(writer.objects), directory, more)
      ensures r.Ok? || (writer != null && r == Err(WriteFailed))
      ensures r.Ok? ==> KeyFor(directory, c, number, In, r.value.0, more)
      ensures r.Ok? ==> KeyFor(directory, c, number, Out, r.value.1, more)
    {
      more := [];
      var inputKey, outputKey, ok := c.inputKey, c.outputKey, true;
      ghost var g;
      if inputKey == "" {
        inputKey, ok, g := StoreFile(directory, number, In, c.inputText);
        if !ok {
          return Err(WriteFailed), [];
        }
        more := [g];
      }
      if outputKey == "" {
        outputKey, ok, g := StoreFile(directory, number, Out, c.outputText);
        if !ok {
          return Err(WriteFailed), more;
        }
        if writer != null {
          WrittenTwice(old(writer.objects), directory, more, [g]);
        }
        KeyForStays(directory, c, number, In, inputKey, more, [g]);
        more := more + [g];
      }
      r := Ok((inputKey, outputKey));
    }

    method MaterializeCase(directory: string, number: nat, c: TestCase)
      returns (r: Result<(string, string), DraftError>, ghost more: seq<Generated>)
      modifies writer
      ensures InOrder(more) && forall g | g in more :: g.number == number && FromFile(Trimmed(c), g)
      ensures writer != null ==> writer.objects == Written(old(writer.objects), directory, more)
      ensures r.Ok? ==> Complete(Trimmed(c))
      ensures r.Err? ==> CaseRefusal(Trimmed(c), number, r.error, writer != null)
      ensures r.Ok? ==> KeyFor(directory, Trimmed(c), number, In, r.value.0, more)
      ensures r.Ok? ==> KeyFor(directory, Trimmed(c), number, Out, r.value.1, more)
      ensures r == Err(InputRequired(number)) <==> TrimSpace(c.inputText) == "" && TrimSpace(c.inputKey) == ""
      ensures r == Err(OutputRequired(number)) <==>
                && (TrimSpace(c.inputText) != "" || TrimSpace(c.inputKey) != "")
                && TrimSpace(c.outputText) == "" && TrimSpace(c.outputKey) == ""
      ensures r.Ok? && TrimSpace(c.inputKey) != "" ==> r.value.0 == TrimSpace(c.inputKey)
      ensures r.Ok? && TrimSpace(c.outputKey) != "" ==> r.value.1 == TrimSpace(c.outputKey)
    {
      var inputKey := TrimSpace(c.inputKey);
      var outputKey := TrimSpace(c.outputKey);
      if TrimSpace(c.inputText) == "" && inputKey == "" {
        return Err(InputRequired(number)), [];
      }
      if TrimSpace(c.outputText) == "" && outputKey == "" {
        return Err(OutputRequired(number)), [];
      }
      r, more := StoreMissing(directory, number, c.(inputKey := inputKey, outputKey := outputKey));
    }

    /** The loop over the test cases. It stops at the first one that cannot be stored. */
    method MaterializeAll(directory: string, cases: seq<TestCase>)
      returns (r: Result<seq<string>, DraftError>, ghost generated: seq<Generated>)
      modifies writer
      ensures FromCases(Map(Trimmed, cases), |cases|, generated) && InOrder(generated)
      ensures writer != null ==> writer.objects == Written(old(writer.objects), directory, generated)
      ensures r.Ok? ==> Listed(directory, Map(Trimmed, cases), |cases|, r.value, generated)
      ensures r.Ok? ==> AllComplete(Map(Trimmed, cases), |cases|)
      ensures r.Err? ==> Refusal(Map(Trimmed, cases), r.error, writer != null)
    {
      hide TrimSpace, Trimmed, KeyFor, ListedCase;
      ghost var trimmed := Map(Trimmed, cases);
      var testFiles: seq<string> := [];
      generated := [];
      for i := 0 to |cases|
        invariant FromCases(trimmed, i, generated) && InOrder(generated)
        invariant writer != null ==> writer.objects == Written(old(writer.objects), directory, generated)
        invariant Listed(directory, trimmed, i, testFiles, generated)
        invariant AllComplete(trimmed, i)
      {
        var keys;
        ghost var more;
        keys, more := MaterializeCase(directory, i + 1, cases[i]);
        assert Trimmed(cases[i]) == trimmed[i];
        CaseInOrder(trimmed, i, generated, more);
        if writer != null {
          WrittenTwice(old(writer.objects), directory, generated, more);
        }
        if keys.Err? {
          assert CaseRefusal(trimmed[i], i + 1, keys.error, writer != null);
          return Err(keys.error), generated + more;
        }
        KeyForJoins(directory, trimmed[i], i + 1, In, keys.value.0, generated, more);
        KeyForJoins(directory, trimmed[i], i + 1, Out, keys.value.1, generated, more);
        ListedGrows(directory, trimmed, i, testFiles, generated, keys.value.0, keys.value.1, more);
        testFiles := testFiles + [keys.value.0, keys.value.1];
        generated := generated + more;
      }
      r := Ok(testFiles);
    }

    /** `sanitize` turns the actor into a path segment. */
    method CreateInlineDraft(input: DraftInput, sanitize: string -> string)
      returns (r: Result<Draft, DraftError>, ghost generated: seq<Generated>)
      modifies writer
      ensures FromCases(Map(Trimmed, input.cases), |input.cases|, generated) && InOrder(generated)
      ensures var directory := "problem-intake/" + sanitize(TrimSpace(input.actorId));
              && (writer != null ==> writer.objects == Written(old(writer.objects), directory, generated))
              && (r.Ok? ==> Listed(directory, Map(Trimmed, input.cases), |input.cases|, r.value.testFiles, generated))
      ensures MissingHeader(input).Some? ==> r == Err(MissingHeader(input).value) && generated == []
      ensures MissingHeader(input).None? && r.Err? ==> Refusal(Map(Trimmed, input.cases), r.error, writer != null)
      ensures r.Ok? ==> MissingHeader(input).None? && AllComplete(Map(Trimmed, input.cases), |input.cases|)
      ensures r.Ok? ==>
                && r.value.owner == TrimSpace(input.actorId) && r.value.title == TrimSpace(input.title)
                && r.value.locale == (if TrimSpace(input.locale) == "" then "zh-CN" else TrimSpace(input.locale))
                && r.value.statement == input.statement
                && r.value.timeLimit == (if input.timeLimit < 1 then 1000 else input.timeLimit)
                && r.value.memoryLimit == (if input.memoryLimit < 1 then 256 else input.memoryLimit)
                && r.value.judgeType
                == (if input.judgeType in {"special_judge", "interactive"} then input.judgeType else "traditional")
      ensures r.Ok? ==>
                |r.value.testFiles| == 2 * |input.cases| &&
                forall k | 0 <= k < |input.cases| ::
                  && FileStored(writer, input.cases[k].inputKey, input.cases[k].inputText, r.value.testFiles[2 * k])
                  && FileStored(writer, input.cases[k].outputKey, input.cases[k].outputText, r.value.testFiles[2 * k + 1])
    {
      var actorId := TrimSpace(input.actorId);
      if actorId == "" {
        return Err(ActorRequired), [];
      }
      if TrimSpace(input.title) == "" {
        return Err(TitleRequired), [];
      }
      if TrimSpace(input.statement) == "" {
        return Err(StatementRequired), [];
      }
      var directory := "problem-intake/" + sanitize(actorId);
      var files;
      files, generated := MaterializeAll(directory, input.cases);
      if files.Err? {
        return Err(files.error), generated;
      }
      if writer != null {
        AllStored(old(writer.objects), writer, directory, input.cases, files.value, generated);
      } else {
        AllListed(directory, input.cases, files.value, generated);
      }
      r := Ok(DraftOf(input, files.value));
    }
  }
}
