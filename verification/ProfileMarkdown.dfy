/**
  The profile page's Markdown renderer: a line-driven machine, against parsing to blocks and printing them.
  Inline markup inside a line is a parameter, `inline`.
 */
module ProfileMarkdown {
  import opened Text

  // ---------- lines ----------

  const FENCE := "```"
  const HEADING := "## "
  const BULLET := "- "

  /** JavaScript white space, as `trim` removes it. */
  predicate IsJsSpace(c: char) {
    || c == '\t' || c == '\n' || c == '\r' || c == ' '
    || (c as int) in {0x0B, 0x0C, 0xA0, 0x1680, 0x2028, 0x2029, 0x202F, 0x205F, 0x3000, 0xFEFF}
    || 0x2000 <= c as int <= 0x200A
  }

  predicate IsBlank(line: string) {
    forall c | c in line :: IsJsSpace(c)
  }

  datatype Line = Fence | HeadingLine(text: string) | ItemLine(text: string) | BlankLine | TextLine(text: string)

  /** The tests of the renderer, in its order. Inside a code block only fences are looked for. */
  function Classify(line: string): Line {
    if HasPrefix(line, FENCE) then Fence
    else if HasPrefix(line, HEADING) then HeadingLine(line[|HEADING|..])
    else if HasPrefix(line, BULLET) then ItemLine(line[|BULLET|..])
    else if IsBlank(line) then BlankLine
    else TextLine(line)
  }

  predicate IsFence(line: string) {
    Classify(line).Fence?
  }

  // ---------- blocks ----------

  /** Each block keeps the lines it came from. */
  datatype Block =
    | Heading(line: string)
    | List(lines: seq<string>)
    | Gap(line: string)
    | Paragraph(line: string)
    | Code(lines: seq<string>)

  predicate WellFormed(b: Block) {
    match b
    case Heading(line) => Classify(line).HeadingLine?
    case List(lines) => lines != [] && forall line | line in lines :: Classify(line).ItemLine?
    case Gap(line) => Classify(line).BlankLine?
    case Paragraph(line) => Classify(line).TextLine?
    case Code(lines) => forall line | line in lines :: !IsFence(line)
  }

  /** The items at the front. */
  function ItemRun(lines: seq<string>): (n: nat)
    ensures n <= |lines|
    ensures forall i | 0 <= i < n :: Classify(lines[i]).ItemLine?
    ensures n < |lines| ==> !Classify(lines[n]).ItemLine?
  {
    if lines == [] || !Classify(lines[0]).ItemLine? then 0 else 1 + ItemRun(lines[1..])
  }

  /** The lines in front of the first fence. */
  function CodeRun(lines: seq<string>): (n: nat)
    ensures n <= |lines|
    ensures forall i | 0 <= i < n :: !IsFence(lines[i])
    ensures n < |lines| ==> IsFence(lines[n])
  {
    if lines == [] || IsFence(lines[0]) then 0 else 1 + CodeRun(lines[1..])
  }

  function Parse(lines: seq<string>): (blocks: seq<Block>)
    ensures forall b | b in blocks :: WellFormed(b)
    decreases |lines|
  {
    if lines == [] then []
    else
      match Classify(lines[0])
      case Fence => CodeBlock([], lines[1..])
      case HeadingLine(_) => [Heading(lines[0])] + Parse(lines[1..])
      case ItemLine(_) => [List(lines[..ItemRun(lines)])] + Parse(lines[ItemRun(lines)..])
      case BlankLine => [Gap(lines[0])] + Parse(lines[1..])
      case TextLine(_) => [Paragraph(lines[0])] + Parse(lines[1..])
  }

  /** A code block of which some lines have been read. Without a closing fence it ends with the text, and is left out if empty. */
  function CodeBlock(read: seq<string>, lines: seq<string>): (blocks: seq<Block>)
    requires forall line | line in read :: !IsFence(line)
    ensures forall b | b in blocks :: WellFormed(b)
    decreases |lines|
  {
    var n := CodeRun(lines);
    var code := read + lines[..n];
    if n < |lines| then [Code(code)] + Parse(lines[n + 1..])
    else if code == [] then []
    else [Code(code)]
  }

  // ---------- printing ----------

  /** One string that the renderer pushes. */
  datatype Piece =
    | OpenList
    | ItemPiece(text: string)
    | CloseList
    | HeadingPiece(text: string)
    | GapPiece
    | ParagraphPiece(text: string)
    | CodePiece(lines: seq<string>)

  function ItemPieces(lines: seq<string>): seq<Piece>
    requires forall line | line in lines :: Classify(line).ItemLine?
  {
    if lines == [] then [] else [ItemPiece(Classify(lines[0]).text)] + ItemPieces(lines[1..])
  }

  function PrintBlock(b: Block): seq<Piece>
    requires WellFormed(b)
  {
    match b
    case Heading(line) => [HeadingPiece(Classify(line).text)]
    case List(lines) => [OpenList] + ItemPieces(lines) + [CloseList]
    case Gap(_) => [GapPiece]
    case Paragraph(line) => [ParagraphPiece(line)]
    case Code(lines) => [CodePiece(lines)]
  }

  function Print(blocks: seq<Block>): seq<Piece>
    requires forall b | b in blocks :: WellFormed(b)
  {
    if blocks == [] then [] else PrintBlock(blocks[0]) + Print(blocks[1..])
  }

  const PRE_CLASS := "my-3 overflow-x-auto rounded-xl bg-slate-950 p-4 text-sm leading-6 text-slate-100"
  const HEADING_CLASS := "mt-3 text-xl font-black text-slate-950"
  const LIST_CLASS := "my-3 grid gap-1 pl-5 text-base leading-7 text-slate-700"
  const PARAGRAPH_CLASS := "text-base leading-8 text-slate-700"

  const PRE_OPEN := "<pre class=\"" + PRE_CLASS + "\"><code>"
  const PRE_CLOSE := "</code></pre>"
  const HEADING_OPEN := "<h3 class=\"" + HEADING_CLASS + "\">"
  const LIST_OPEN := "<ul class=\"" + LIST_CLASS + "\">"
  const ITEM_OPEN := "<li class=\"list-disc\">"
  const PARAGRAPH_OPEN := "<p class=\"" + PARAGRAPH_CLASS + "\">"

  function Html(p: Piece, inline: string -> string): string {
    match p
    case OpenList => LIST_OPEN
    case ItemPiece(text) => ITEM_OPEN + inline(text) + "</li>"
    case CloseList => "</ul>"
    case HeadingPiece(text) => HEADING_OPEN + inline(text) + "</h3>"
    case GapPiece => "<div class=\"h-2\"></div>"
    case ParagraphPiece(text) => PARAGRAPH_OPEN + inline(text) + "</p>"
    case CodePiece(lines) => PRE_OPEN + EscapeProfileHtml(Join(lines, "\n")) + PRE_CLOSE
  }

  function Strings(pieces: seq<Piece>, inline: string -> string): seq<string> {
    if pieces == [] then [] else Strings(pieces[..|pieces| - 1], inline) + [Html(pieces[|pieces| - 1], inline)]
  }

  // ---------- escaping ----------

  /** `replaceAll` of a one-character pattern. */
  function ReplaceAll(s: string, c: char, entity: string): string {
    if s == "" then "" else (if s[0] == c then entity else [s[0]]) + ReplaceAll(s[1..], c, entity)
  }

  function EscapeProfileHtml(s: string): string {
    ReplaceAll(ReplaceAll(ReplaceAll(s, '&', "&amp;"), '<', "&lt;"), '>', "&gt;")
  }

  function Entity(c: char): string {
    if c == '&' then "&amp;" else if c == '<' then "&lt;" else if c == '>' then "&gt;" else [c]
  }

  function EscapeEach(s: string): string {
    if s == "" then "" else Entity(s[0]) + EscapeEach(s[1..])
  }

  lemma {:induction false} ReplaceConcat(s: string, t: string, c: char, entity: string)
    ensures ReplaceAll(s + t, c, entity) == ReplaceAll(s, c, entity) + ReplaceAll(t, c, entity)
  {
    if s == "" {
      assert s + t == t;
    } else {
      ReplaceConcat(s[1..], t, c, entity);
      assert (s + t)[0] == s[0] && (s + t)[1..] == s[1..] + t;
      var first := if s[0] == c then entity else [s[0]];
      assert first + (ReplaceAll(s[1..], c, entity) + ReplaceAll(t, c, entity))
          == first + ReplaceAll(s[1..], c, entity) + ReplaceAll(t, c, entity);
    }
  }

  lemma {:induction false} ReplaceAbsent(s: string, c: char, entity: string)
    requires c !in s
    ensures ReplaceAll(s, c, entity) == s
  {
    if s != "" {
      assert s[0] in s;
      ReplaceAbsent(s[1..], c, entity);
      assert s == [s[0]] + s[1..];
    }
  }

  /** The three passes escape each character once: the entities of one pass are not touched by the next. */
  lemma {:induction false} EscapesEachOnce(s: string)
    ensures EscapeProfileHtml(s) == EscapeEach(s)
  {
    if s != "" {
      var first := if s[0] == '&' then "&amp;" else [s[0]];
      var second := ReplaceAll(first, '<', "&lt;");
      var rest1 := ReplaceAll(s[1..], '&', "&amp;");
      var rest2 := ReplaceAll(rest1, '<', "&lt;");
      ReplaceConcat(first, rest1, '<', "&lt;");
      ReplaceConcat(second, rest2, '>', "&gt;");
      if s[0] == '<' {
        assert first[1..] == "" && second == "&lt;";
        ReplaceAbsent("&lt;", '>', "&gt;");
      } else {
        ReplaceAbsent(first, '<', "&lt;");
        if s[0] == '>' {
          assert second[1..] == "";
        } else {
          ReplaceAbsent(second, '>', "&gt;");
        }
      }
      EscapesEachOnce(s[1..]);
    }
  }

  /** Reading the entities back. */
  function Unescape(s: string): string {
    if s == "" then ""
    else if HasPrefix(s, "&amp;") then ['&'] + Unescape(s[5..])
    else if HasPrefix(s, "&lt;") then ['<'] + Unescape(s[4..])
    else if HasPrefix(s, "&gt;") then ['>'] + Unescape(s[4..])
    else [s[0]] + Unescape(s[1..])
  }

  lemma UnescapeEntity(c: char, rest: string)
    ensures Unescape(Entity(c) + rest) == [c] + Unescape(rest)
  {
    var s := Entity(c) + rest;
    if c == '&' {
      assert s[..5] == "&amp;" && s[5..] == rest;
    } else if c == '<' {
      assert s[..4] == "&lt;" && s[4..] == rest && s[1] == 'l';
    } else if c == '>' {
      assert s[..4] == "&gt;" && s[4..] == rest && s[1] == 'g';
    } else {
      assert s[0] == c && s[1..] == rest;
    }
  }

  lemma {:induction false} EscapeRoundTrip(s: string)
    ensures Unescape(EscapeEach(s)) == s
    ensures '<' !in EscapeEach(s) && '>' !in EscapeEach(s)
  {
    if s != "" {
      UnescapeEntity(s[0], EscapeEach(s[1..]));
      EscapeRoundTrip(s[1..]);
      assert s == [s[0]] + s[1..];
    }
  }

  lemma JoinedLinesSplit(lines: seq<string>)
    requires forall line | line in lines :: '\n' !in line
    ensures Split(Join(lines, "\n"), '\n') == if lines == [] then [""] else lines
  {
    assert "\n" == ['\n'];
    if lines != [] {
      SplitOfJoin(lines, '\n');
    }
  }

  // ---------- the machine ----------

  /** What is still to be pushed for the remaining lines, from each state of the machine. */
  function Remaining(inCode: bool, codeLines: seq<string>, inList: bool, lines: seq<string>): seq<Piece>
    requires forall line | line in codeLines :: !IsFence(line)
  {
    if inCode then Print(CodeBlock(codeLines, lines))
    else if inList then AfterItem(lines)
    else Print(Parse(lines))
  }

  function AfterItem(lines: seq<string>): seq<Piece> {
    var n := ItemRun(lines);
    ItemPieces(lines[..n]) + [CloseList] + Print(Parse(lines[n..]))
  }

  function Closing(inList: bool): seq<Piece> {
    if inList then [CloseList] else []
  }

  lemma PrintOne(b: Block, rest: seq<Block>)
    requires WellFormed(b) && forall x | x in rest :: WellFormed(x)
    ensures Print([b] + rest) == PrintBlock(b) + Print(rest)
  {
    assert ([b] + rest)[1..] == rest;
  }

  /** A line that is no item ends the list, and is then read as if there were none. */
  lemma ListEnds(inList: bool, lines: seq<string>)
    requires lines == [] || !Classify(lines[0]).ItemLine?
    ensures Remaining(false, [], inList, lines) == Closing(inList) + Print(Parse(lines))
  {
    hide Parse, Print;
    assert ItemRun(lines) == 0 && lines[0..] == lines && lines[..0] == [];
    assert [] + [CloseList] + Print(Parse(lines)) == [CloseList] + Print(Parse(lines));
    assert [] + Print(Parse(lines)) == Print(Parse(lines));
  }

  lemma FenceOpens(lines: seq<string>)
    requires lines != [] && IsFence(lines[0])
    ensures Print(Parse(lines)) == Remaining(true, [], false, lines[1..])
  {
  }

  lemma FenceCloses(codeLines: seq<string>, lines: seq<string>)
    requires lines != [] && IsFence(lines[0]) && forall line | line in codeLines :: !IsFence(line)
    ensures Remaining(true, codeLines, false, lines) == [CodePiece(codeLines)] + Remaining(false, [], false, lines[1..])
  {
    assert CodeRun(lines) == 0 && codeLines + lines[..0] == codeLines;
    PrintOne(Code(codeLines), Parse(lines[1..]));
  }

  lemma CodeContinues(codeLines: seq<string>, lines: seq<string>)
    requires lines != [] && !IsFence(lines[0]) && forall line | line in codeLines :: !IsFence(line)
    ensures forall line | line in codeLines + [lines[0]] :: !IsFence(line)
    ensures Remaining(true, codeLines, false, lines) == Remaining(true, codeLines + [lines[0]], false, lines[1..])
  {
    var n := CodeRun(lines);
    assert CodeRun(lines[1..]) == n - 1;
    assert codeLines + lines[..n] == codeLines + [lines[0]] + lines[1..][..n - 1];
    if n < |lines| {
      assert lines[1..][n - 1 + 1..] == lines[n + 1..];
    }
  }

  lemma ItemContinues(lines: seq<string>)
    requires lines != [] && Classify(lines[0]).ItemLine?
    ensures AfterItem(lines) == [ItemPiece(Classify(lines[0]).text)] + AfterItem(lines[1..])
  {
    var n := ItemRun(lines);
    assert ItemRun(lines[1..]) == n - 1;
    assert lines[..n][1..] == lines[1..][..n - 1];
    assert lines[1..][n - 1..] == lines[n..];
  }

  lemma ListBegins(lines: seq<string>)
    requires lines != [] && Classify(lines[0]).ItemLine?
    ensures Print(Parse(lines)) == [OpenList] + AfterItem(lines)
  {
    var n := ItemRun(lines);
    ParsesToList(lines);
    PrintOne(List(lines[..n]), Parse(lines[n..]));
    Regroup([OpenList], ItemPieces(lines[..n]), [CloseList], Print(Parse(lines[n..])));
  }

  lemma ParsesToList(lines: seq<string>)
    requires lines != [] && Classify(lines[0]).ItemLine?
    ensures Parse(lines) == [List(lines[..ItemRun(lines)])] + Parse(lines[ItemRun(lines)..])
  {
  }

  lemma Regroup(a: seq<Piece>, b: seq<Piece>, c: seq<Piece>, d: seq<Piece>)
    ensures a + b + c + d == a + (b + c + d)
  {
  }

  lemma LineBlock(lines: seq<string>)
    requires lines != []
    ensures match Classify(lines[0])
            case HeadingLine(text) => Print(Parse(lines)) == [HeadingPiece(text)] + Print(Parse(lines[1..]))
            case BlankLine => Print(Parse(lines)) == [GapPiece] + Print(Parse(lines[1..]))
            case TextLine(text) => Print(Parse(lines)) == [ParagraphPiece(text)] + Print(Parse(lines[1..]))
            case _ => true
  {
    match Classify(lines[0])
    case HeadingLine(_) => PrintOne(Heading(lines[0]), Parse(lines[1..]));
    case BlankLine => PrintOne(Gap(lines[0]), Parse(lines[1..]));
    case TextLine(_) => PrintOne(Paragraph(lines[0]), Parse(lines[1..]));
    case _ =>
  }

  lemma StringsConcat(pieces: seq<Piece>, more: seq<Piece>, inline: string -> string)
    ensures Strings(pieces + more, inline) == Strings(pieces, inline) + Strings(more, inline)
  {
    if more == [] {
      assert pieces + more == pieces;
    } else {
      var n := |more| - 1;
      StringsConcat(pieces, more[..n], inline);
      assert (pieces + more)[..|pieces + more| - 1] == pieces + more[..n];
    }
  }

  // ---------- the renderer ----------

  method RenderProfileMarkdown(markdown: string, inline: string -> string) returns (r: string)
    ensures r == Join(Strings(Print(Parse(Split(markdown, '\n'))), inline), "")
    ensures RendersAll(Print(Parse(Split(markdown, '\n'))), Strings(Print(Parse(Split(markdown, '\n'))), inline), inline)
  {
    StringsRender(Print(Parse(Split(markdown, '\n'))), inline);
    hide RendersAll;
    var lines := Split(markdown, '\n');
    var html: seq<string> := [];
    ghost var pieces: seq<Piece> := [];
    var inCode := false;
    var codeLines: seq<string> := [];
    var inList := false;
    assert lines[0..] == lines;
    for i := 0 to |lines|
      invariant html == Strings(pieces, inline)
      invariant forall line | line in codeLines :: !IsFence(line)
      invariant !inCode ==> codeLines == []
      invariant !(inCode && inList)
      invariant pieces + Remaining(inCode, codeLines, inList, lines[i..]) == Print(Parse(lines))
    {
      ghost var pushed: seq<Piece>;
      ghost var before := pieces;
      html, inCode, codeLines, inList, pushed := RenderLine(lines[i..], html, pieces, inCode, codeLines, inList, inline, lines[i]);
      pieces := pieces + pushed;
      assert lines[i..][1..] == lines[i + 1..];
      Associate(before, pushed, Remaining(inCode, codeLines, inList, lines[i + 1..]));
    }
    assert lines[|lines|..] == [];
    html := html + if inList then [Html(CloseList, inline)] else [];
    StringsConcat(pieces, Closing(inList), inline);
    if |codeLines| > 0 {
      html := html + [Html(CodePiece(codeLines), inline)];
    }
    AtEnd(pieces, html, inCode, codeLines, inList, inline);
    r := Join(html, "");
  }

  lemma Associate(a: seq<Piece>, b: seq<Piece>, c: seq<Piece>)
    ensures a + (b + c) == a + b + c
  {
  }

  lemma AtEnd(pieces: seq<Piece>, html: seq<string>, inCode: bool, codeLines: seq<string>, inList: bool, inline: string -> string)
    requires forall line | line in codeLines :: !IsFence(line)
    requires (!inCode ==> codeLines == []) && !(inCode && inList)
    requires html == Strings(pieces, inline) + Strings(Closing(inList), inline)
                   + if codeLines != [] then [Html(CodePiece(codeLines), inline)] else []
    ensures html == Strings(pieces + Remaining(inCode, codeLines, inList, []), inline)
  {
    StringsConcat(pieces, Remaining(inCode, codeLines, inList, []), inline);
    if inCode {
      assert codeLines + [] == codeLines;
      if codeLines != [] {
        PrintOne(Code(codeLines), []);
        assert [Code(codeLines)] + [] == [Code(codeLines)];
        assert [] + [CodePiece(codeLines)] == [CodePiece(codeLines)];
        PushOne([], [], CodePiece(codeLines), inline);
      }
    } else {
      ListEnds(inList, []);
      assert Closing(inList) + [] == Closing(inList);
    }
  }

  lemma PushOne(html: seq<string>, pieces: seq<Piece>, p: Piece, inline: string -> string)
    requires html == Strings(pieces, inline)
    ensures html + [Html(p, inline)] == Strings(pieces + [p], inline)
  {
    assert (pieces + [p])[..|pieces|] == pieces;
  }

  /** `closeList`. */
  method CloseOpenList(html: seq<string>, ghost pieces: seq<Piece>, inList: bool, inline: string -> string)
    returns (html': seq<string>)
    requires html == Strings(pieces, inline)
    ensures html' == Strings(pieces + Closing(inList), inline)
  {
    html' := html;
    assert pieces + [] == pieces;
    if inList {
      PushOne(html, pieces, CloseList, inline);
      html' := html' + [Html(CloseList, inline)];
    }
  }

  method Push(html: seq<string>, ghost pieces: seq<Piece>, p: Piece, inline: string -> string) returns (html': seq<string>)
    requires html == Strings(pieces, inline)
    ensures html' == Strings(pieces + [p], inline)
  {
    PushOne(html, pieces, p, inline);
    html' := html + [Html(p, inline)];
  }

  /** The loop body: the first of `lines`. */
  method RenderLine(ghost lines: seq<string>, html: seq<string>, ghost pieces: seq<Piece>,
                    inCode: bool, codeLines: seq<string>, inList: bool, inline: string -> string, line: string)
    returns (html': seq<string>, inCode': bool, codeLines': seq<string>, inList': bool, ghost pushed: seq<Piece>)
    requires lines != [] && line == lines[0] && html == Strings(pieces, inline)
    requires forall l | l in codeLines :: !IsFence(l)
    requires (!inCode ==> codeLines == []) && !(inCode && inList)
    ensures forall l | l in codeLines' :: !IsFence(l)
    ensures (!inCode' ==> codeLines' == []) && !(inCode' && inList')
    ensures html' == Strings(pieces + pushed, inline)
    ensures Remaining(inCode, codeLines, inList, lines) == pushed + Remaining(inCode', codeLines', inList', lines[1..])
  {
    html', inCode', codeLines', inList', pushed := html, inCode, codeLines, inList, [];
    assert pieces + [] == pieces;
    if HasPrefix(line, FENCE) {
      html', pushed := RenderFence(lines, html, pieces, inCode, codeLines, inList, inline);
      inCode', codeLines', inList' := !inCode, [], false;
    } else if inCode {
      CodeContinues(codeLines, lines);
      codeLines' := codeLines + [line];
    } else {
      html', inList', pushed := RenderText(lines, html, pieces, inList, inline, line);
    }
  }

  /** A fence closes an open list, and prints the code block it ends if it ends one. */
  method RenderFence(ghost lines: seq<string>, html: seq<string>, ghost pieces: seq<Piece>,
                     inCode: bool, codeLines: seq<string>, inList: bool, inline: string -> string)
    returns (html': seq<string>, ghost pushed: seq<Piece>)
    requires lines != [] && IsFence(lines[0]) && html == Strings(pieces, inline)
    requires forall l | l in codeLines :: !IsFence(l)
    requires (!inCode ==> codeLines == []) && !(inCode && inList)
    ensures html' == Strings(pieces + pushed, inline)
    ensures Remaining(inCode, codeLines, inList, lines) == pushed + Remaining(!inCode, [], false, lines[1..])
  {
    html' := CloseOpenList(html, pieces, inList, inline);
    pushed := Closing(inList);
    if inCode {
      FenceCloses(codeLines, lines);
      assert pieces + [] == pieces;
      html' := Push(html', pieces, CodePiece(codeLines), inline);
      pushed := [CodePiece(codeLines)];
    } else {
      ListEnds(inList, lines);
      FenceOpens(lines);
    }
  }

  /** Any other line outside code. */
  method RenderText(ghost lines: seq<string>, html: seq<string>, ghost pieces: seq<Piece>,
                    inList: bool, inline: string -> string, line: string)
    returns (html': seq<string>, inList': bool, ghost pushed: seq<Piece>)
    requires lines != [] && line == lines[0] && !HasPrefix(line, FENCE) && html == Strings(pieces, inline)
    ensures html' == Strings(pieces + pushed, inline)
    ensures Remaining(false, [], inList, lines) == pushed + Remaining(false, [], inList', lines[1..])
  {
    hide Parse, Print, Html, Strings;
    if !HasPrefix(line, HEADING) && HasPrefix(line, BULLET) {
      html', pushed := RenderItem(lines, html, pieces, inList, inline, line);
      inList' := true;
    } else {
      html' := CloseOpenList(html, pieces, inList, inline);
      inList' := false;
      ListEnds(inList, lines);
      LineBlock(lines);
      ghost var piece;
      html', piece := RenderSingle(html', pieces + Closing(inList), inline, line);
      pushed := Closing(inList) + [piece];
      assert pieces + Closing(inList) + [piece] == pieces + pushed;
      Associate(Closing(inList), [piece], Print(Parse(lines[1..])));
    }
  }

  method RenderItem(ghost lines: seq<string>, html: seq<string>, ghost pieces: seq<Piece>,
                    inList: bool, inline: string -> string, line: string)
    returns (html': seq<string>, ghost pushed: seq<Piece>)
    requires lines != [] && line == lines[0] && html == Strings(pieces, inline)
    requires HasPrefix(line, BULLET) && Classify(line) == ItemLine(line[|BULLET|..])
    ensures html' == Strings(pieces + pushed, inline)
    ensures Remaining(false, [], inList, lines) == pushed + AfterItem(lines[1..])
  {
    html' := html;
    ghost var begun: seq<Piece> := [];
    assert pieces + [] == pieces;
    if !inList {
      html' := Push(html', pieces, OpenList, inline);
      begun := [OpenList];
      ListBegins(lines);
    }
    html' := Push(html', pieces + begun, ItemPiece(line[|BULLET|..]), inline);
    pushed := begun + [ItemPiece(line[|BULLET|..])];
    assert pieces + begun + [ItemPiece(line[|BULLET|..])] == pieces + pushed;
    ItemContinues(lines);
    Associate(begun, [ItemPiece(line[|BULLET|..])], AfterItem(lines[1..]));
    assert [] + AfterItem(lines) == AfterItem(lines);
  }

  method RenderSingle(html: seq<string>, ghost pieces: seq<Piece>, inline: string -> string, line: string)
    returns (html': seq<string>, ghost piece: Piece)
    requires html == Strings(pieces, inline)
    requires !Classify(line).Fence? && !Classify(line).ItemLine?
    ensures html' == Strings(pieces + [piece], inline)
    ensures piece == match Classify(line) case HeadingLine(text) => HeadingPiece(text)
                                          case BlankLine => GapPiece
                                          case _ => ParagraphPiece(line)
  {
    if HasPrefix(line, HEADING) {
      piece := HeadingPiece(line[|HEADING|..]);
      html' := Push(html, pieces, HeadingPiece(line[|HEADING|..]), inline);
    } else if IsBlank(line) {
      piece := GapPiece;
      html' := Push(html, pieces, GapPiece, inline);
    } else {
      piece := ParagraphPiece(line);
      html' := Push(html, pieces, ParagraphPiece(line), inline);
    }
  }

  // ---------- what the blocks promise ----------

  function BlockLines(b: Block): seq<string> {
    match b
    case Heading(line) => [line]
    case List(lines) => lines
    case Gap(line) => [line]
    case Paragraph(line) => [line]
    case Code(lines) => lines
  }

  /** The source lines of the blocks, in order. */
  function SourceLines(blocks: seq<Block>): seq<string> {
    if blocks == [] then [] else BlockLines(blocks[0]) + SourceLines(blocks[1..])
  }

  function WithoutFences(lines: seq<string>): seq<string> {
    if lines == [] then []
    else (if IsFence(lines[0]) then [] else [lines[0]]) + WithoutFences(lines[1..])
  }

  lemma {:induction false} WithoutFencesRun(lines: seq<string>, n: nat)
    requires n <= |lines| && forall i | 0 <= i < n :: !IsFence(lines[i])
    ensures WithoutFences(lines) == lines[..n] + WithoutFences(lines[n..])
  {
    if n == 0 {
      assert lines[..0] + WithoutFences(lines[0..]) == WithoutFences(lines[0..]);
      assert lines[0..] == lines;
    } else {
      WithoutFencesRun(lines[1..], n - 1);
      assert lines[..n] == [lines[0]] + lines[1..][..n - 1];
      assert lines[1..][n - 1..] == lines[n..];
    }
  }

  lemma SourceLinesOne(b: Block, rest: seq<Block>)
    ensures SourceLines([b] + rest) == BlockLines(b) + SourceLines(rest)
  {
    assert ([b] + rest)[1..] == rest;
  }

  /** Every line that is no fence is rendered exactly once and in order, in an unterminated code block too. */
  lemma {:induction false} EveryLineOnce(lines: seq<string>)
    ensures SourceLines(Parse(lines)) == WithoutFences(lines)
    decreases |lines|, 1
  {
    if lines != [] {
      match Classify(lines[0])
      case Fence =>
        EveryCodeLineOnce([], lines[1..]);
        assert [] + WithoutFences(lines[1..]) == WithoutFences(lines[1..]);
      case ItemLine(_) =>
        var n := ItemRun(lines);
        ParsesToList(lines);
        SourceLinesOne(List(lines[..n]), Parse(lines[n..]));
        EveryLineOnce(lines[n..]);
        WithoutFencesRun(lines, n);
      case HeadingLine(_) =>
        SourceLinesOne(Heading(lines[0]), Parse(lines[1..]));
        EveryLineOnce(lines[1..]);
      case BlankLine =>
        SourceLinesOne(Gap(lines[0]), Parse(lines[1..]));
        EveryLineOnce(lines[1..]);
      case TextLine(_) =>
        SourceLinesOne(Paragraph(lines[0]), Parse(lines[1..]));
        EveryLineOnce(lines[1..]);
    }
  }

  lemma {:induction false} EveryCodeLineOnce(read: seq<string>, lines: seq<string>)
    requires forall line | line in read :: !IsFence(line)
    ensures SourceLines(CodeBlock(read, lines)) == read + WithoutFences(lines)
    decreases |lines|, 0
  {
    var n := CodeRun(lines);
    if n < |lines| {
      EveryLineOnce(lines[n + 1..]);
      ClosedCodeLines(read, lines);
    } else {
      OpenCodeLines(read, lines);
    }
  }

  lemma ClosedCodeLines(read: seq<string>, lines: seq<string>)
    requires forall line | line in read :: !IsFence(line)
    requires CodeRun(lines) < |lines|
    requires SourceLines(Parse(lines[CodeRun(lines) + 1..])) == WithoutFences(lines[CodeRun(lines) + 1..])
    ensures SourceLines(CodeBlock(read, lines)) == read + WithoutFences(lines)
  {
    var n := CodeRun(lines);
    WithoutFencesToFence(lines, n);
    CodeThenRest(read, lines[..n], Parse(lines[n + 1..]));
  }

  lemma CodeThenRest(read: seq<string>, front: seq<string>, blocks: seq<Block>)
    ensures SourceLines([Code(read + front)] + blocks) == read + (front + SourceLines(blocks))
  {
    SourceLinesOne(Code(read + front), blocks);
  }

  lemma OpenCodeLines(read: seq<string>, lines: seq<string>)
    requires forall line | line in read :: !IsFence(line)
    requires CodeRun(lines) == |lines|
    ensures SourceLines(CodeBlock(read, lines)) == read + WithoutFences(lines)
  {
    WithoutFencesToFence(lines, |lines|);
    LastCodeBlock(read + lines[..|lines|]);
    assert lines[..|lines|] == lines == lines + [];
  }

  lemma LastCodeBlock(code: seq<string>)
    ensures SourceLines(if code == [] then [] else [Code(code)]) == code
  {
    SourceLinesOne(Code(code), []);
    assert [Code(code)] + [] == [Code(code)];
  }

  lemma WithoutFence(lines: seq<string>)
    requires lines != [] && IsFence(lines[0])
    ensures WithoutFences(lines) == WithoutFences(lines[1..])
  {
    assert [] + WithoutFences(lines[1..]) == WithoutFences(lines[1..]);
  }

  lemma WithoutFencesToFence(lines: seq<string>, n: nat)
    requires n <= |lines| && forall i | 0 <= i < n :: !IsFence(lines[i])
    requires n < |lines| ==> IsFence(lines[n])
    ensures WithoutFences(lines) == lines[..n] + if n < |lines| then WithoutFences(lines[n + 1..]) else []
  {
    WithoutFencesRun(lines, n);
    if n < |lines| {
      WithoutFence(lines[n..]);
      assert lines[n..][1..] == lines[n + 1..];
    } else {
      assert lines[n..] == [];
    }
  }

  /** Lists are maximal: no two stand next to each other, so each run of item lines is one list. */
  lemma {:induction false} ListsAreMaximal(lines: seq<string>)
    ensures forall i | 0 <= i < |Parse(lines)| - 1 :: !(Parse(lines)[i].List? && Parse(lines)[i + 1].List?)
    ensures Parse(lines) != [] && Parse(lines)[0].List? ==> Classify(lines[0]).ItemLine?
    decreases |lines|, 1
  {
    if lines != [] {
      match Classify(lines[0])
      case Fence => ListsAreMaximalInCode([], lines[1..]);
      case ItemLine(_) =>
        ParsesToList(lines);
        ListsAreMaximal(lines[ItemRun(lines)..]);
      case _ => ListsAreMaximal(lines[1..]);
    }
  }

  lemma {:induction false} ListsAreMaximalInCode(read: seq<string>, lines: seq<string>)
    requires forall line | line in read :: !IsFence(line)
    ensures var blocks := CodeBlock(read, lines);
            && (forall i | 0 <= i < |blocks| - 1 :: !(blocks[i].List? && blocks[i + 1].List?))
            && (blocks != [] ==> !blocks[0].List?)
    decreases |lines|, 0
  {
    var n := CodeRun(lines);
    if n < |lines| {
      ListsAreMaximal(lines[n + 1..]);
    }
  }

  /** Items only inside a list, nothing else inside one, and every list closed at the end. */
  predicate Disciplined(pieces: seq<Piece>, inList: bool) {
    if pieces == [] then !inList
    else
      match pieces[0]
      case OpenList => !inList && Disciplined(pieces[1..], true)
      case ItemPiece(_) => inList && Disciplined(pieces[1..], true)
      case CloseList => inList && Disciplined(pieces[1..], false)
      case _ => !inList && Disciplined(pieces[1..], false)
  }

  lemma PrependItem(item: Piece, items: seq<Piece>, after: seq<Piece>)
    requires item.ItemPiece? && Disciplined(items + after, true)
    ensures Disciplined([item] + items + after, true)
  {
    assert ([item] + items + after)[1..] == items + after;
  }

  lemma {:induction false} ItemsDisciplined(lines: seq<string>, after: seq<Piece>)
    requires forall line | line in lines :: Classify(line).ItemLine?
    requires Disciplined(after, true)
    ensures Disciplined(ItemPieces(lines) + after, true)
  {
    if lines == [] {
      assert ItemPieces(lines) + after == after;
    } else {
      ItemsDisciplined(lines[1..], after);
      var item := ItemPiece(Classify(lines[0]).text);
      assert ItemPieces(lines) == [item] + ItemPieces(lines[1..]);
      PrependItem(item, ItemPieces(lines[1..]), after);
    }
  }

  lemma ListDisciplined(lines: seq<string>, rest: seq<Piece>)
    requires forall line | line in lines :: Classify(line).ItemLine?
    requires Disciplined(rest, false)
    ensures Disciplined([OpenList] + ItemPieces(lines) + [CloseList] + rest, false)
  {
    assert ([CloseList] + rest)[1..] == rest;
    ItemsDisciplined(lines, [CloseList] + rest);
    var all := [OpenList] + ItemPieces(lines) + [CloseList] + rest;
    assert all[1..] == ItemPieces(lines) + ([CloseList] + rest);
  }

  /** Printing any blocks closes each list before the next block and before the end. */
  lemma {:induction false} PrintDisciplined(blocks: seq<Block>)
    requires forall b | b in blocks :: WellFormed(b)
    ensures Disciplined(Print(blocks), false)
  {
    if blocks != [] {
      PrintDisciplined(blocks[1..]);
      assert blocks[0] in blocks && WellFormed(blocks[0]);
      var rest := Print(blocks[1..]);
      match blocks[0]
      case List(lines) => ListDisciplined(lines, rest);
      case _ => assert (PrintBlock(blocks[0]) + rest)[1..] == rest;
    }
  }

  lemma {:induction false} BlockLineIsSource(blocks: seq<Block>, b: Block, line: string)
    requires b in blocks && line in BlockLines(b)
    ensures line in SourceLines(blocks)
  {
    if b != blocks[0] {
      BlockLineIsSource(blocks[1..], b, line);
    }
  }

  lemma {:induction false} WithoutFencesMember(lines: seq<string>, line: string)
    requires line in WithoutFences(lines)
    ensures line in lines
  {
    if line != lines[0] {
      WithoutFencesMember(lines[1..], line);
    }
  }

  // ---------- the text of the page ----------

  /** `part` shows the piece: markup of its own around the line's text, or around code that carries no markup. */
  ghost predicate Renders(p: Piece, part: string, inline: string -> string) {
    match p
    case OpenList => part == "<ul class=\"" + LIST_CLASS + "\">"
    case ItemPiece(text) => part == "<li class=\"list-disc\">" + inline(text) + "</li>"
    case CloseList => part == "</ul>"
    case HeadingPiece(text) => part == "<h3 class=\"" + HEADING_CLASS + "\">" + inline(text) + "</h3>"
    case GapPiece => part == "<div class=\"h-2\"></div>"
    case ParagraphPiece(text) => part == "<p class=\"" + PARAGRAPH_CLASS + "\">" + inline(text) + "</p>"
    case CodePiece(lines) =>
      exists body :: part == "<pre class=\"" + PRE_CLASS + "\"><code>" + body + "</code></pre>" && IsEscaped(body, Join(lines, "\n"))
  }

  /** Markup-free text that reads as `text`. */
  ghost predicate IsEscaped(body: string, text: string) {
    '<' !in body && '>' !in body && Unescape(body) == text
  }

  ghost predicate RendersAll(pieces: seq<Piece>, parts: seq<string>, inline: string -> string) {
    |parts| == |pieces| && forall i | 0 <= i < |pieces| :: Renders(pieces[i], parts[i], inline)
  }

  lemma HtmlRenders(p: Piece, inline: string -> string)
    ensures Renders(p, Html(p, inline), inline)
  {
    if p.CodePiece? {
      var text := Join(p.lines, "\n");
      EscapesEachOnce(text);
      EscapeRoundTrip(text);
      assert IsEscaped(EscapeProfileHtml(text), text);
    }
  }

  lemma {:induction false} StringsRender(pieces: seq<Piece>, inline: string -> string)
    ensures RendersAll(pieces, Strings(pieces, inline), inline)
  {
    hide Html, Renders;
    if pieces != [] {
      var n := |pieces| - 1;
      StringsRender(pieces[..n], inline);
      HtmlRenders(pieces[n], inline);
      forall i | 0 <= i < |pieces| ensures Renders(pieces[i], Strings(pieces, inline)[i], inline) {
        assert i < n ==> pieces[i] == pieces[..n][i];
      }
    }
  }

  /** Which piece a line outside code becomes, by the characters it starts with. */
  lemma LineMeans(line: string)
    ensures IsFence(line) <==> HasPrefix(line, "```")
    ensures !IsFence(line) ==>
              match LinePiece(line)
              case HeadingPiece(text) => line == "## " + text
              case ItemPiece(text) => line == "- " + text
              case GapPiece => forall c | c in line :: IsJsSpace(c)
              case ParagraphPiece(text) =>
                && text == line && !HasPrefix(line, "## ") && !HasPrefix(line, "- ")
                && exists c :: c in line && !IsJsSpace(c)
              case _ => false
  {
    if HasPrefix(line, HEADING) {
      assert line == HEADING + line[|HEADING|..];
    }
    if HasPrefix(line, BULLET) {
      assert line == BULLET + line[|BULLET|..];
    }
  }

  lemma {:induction false} PieceIsBlock(blocks: seq<Block>, i: nat)
    requires forall b | b in blocks :: WellFormed(b)
    requires i < |Print(blocks)| && Print(blocks)[i].CodePiece?
    ensures Code(Print(blocks)[i].lines) in blocks
  {
    var n := |PrintBlock(blocks[0])|;
    assert blocks[0] in blocks && WellFormed(blocks[0]);
    if i < n {
      NoCodeInList(blocks[0], i);
    } else {
      PieceIsBlock(blocks[1..], i - n);
    }
  }

  lemma NoCodeInList(b: Block, i: nat)
    requires WellFormed(b) && i < |PrintBlock(b)| && PrintBlock(b)[i].CodePiece?
    ensures b == Code(PrintBlock(b)[i].lines)
  {
    if b.List? {
      ItemsAreItems(b.lines);
      assert forall p | p in [OpenList] + ItemPieces(b.lines) + [CloseList] :: !p.CodePiece?;
    }
  }

  lemma {:induction false} ItemsAreItems(lines: seq<string>)
    requires forall line | line in lines :: Classify(line).ItemLine?
    ensures forall p | p in ItemPieces(lines) :: p.ItemPiece?
  {
    if lines != [] {
      ItemsAreItems(lines[1..]);
    }
  }

  /**
    In the text printed for a document each code block stands as a body between its tags that carries no
    markup and reads back as the block's lines, an empty block as one empty line.
   */
  lemma CodeBlocksReadBack(markdown: string, inline: string -> string, i: nat) returns (body: string)
    requires i < |Print(Parse(Split(markdown, '\n')))| && Print(Parse(Split(markdown, '\n')))[i].CodePiece?
    ensures var pieces := Print(Parse(Split(markdown, '\n')));
            && |Strings(pieces, inline)| == |pieces|
            && Strings(pieces, inline)[i] == "<pre class=\"" + PRE_CLASS + "\"><code>" + body + "</code></pre>"
            && '<' !in body && '>' !in body
            && Split(Unescape(body), '\n') == if pieces[i].lines == [] then [""] else pieces[i].lines
  {
    var source := Split(markdown, '\n');
    var pieces := Print(Parse(source));
    var lines := pieces[i].lines;
    StringsRender(pieces, inline);
    assert Renders(pieces[i], Strings(pieces, inline)[i], inline);
    body :| Strings(pieces, inline)[i] == "<pre class=\"" + PRE_CLASS + "\"><code>" + body + "</code></pre>" && IsEscaped(body, Join(lines, "\n"));
    PieceIsBlock(Parse(source), i);
    EveryLineOnce(source);
    forall line | line in lines ensures '\n' !in line {
      BlockLineIsSource(Parse(source), Code(lines), line);
      WithoutFencesMember(source, line);
    }
    JoinedLinesSplit(lines);
  }

  // ---------- every line is printed once ----------

  /** What a reader sees of one source line: a line of code, or a piece of its own. */
  datatype Shown = CodeLine(text: string) | Own(piece: Piece)

  function CodeLines(lines: seq<string>): seq<Shown> {
    if lines == [] then [] else [CodeLine(lines[0])] + CodeLines(lines[1..])
  }

  /** The pieces without the tags around lists, and code line by line. */
  function ShownBy(pieces: seq<Piece>): seq<Shown> {
    if pieces == [] then [] else ShownByOne(pieces[0]) + ShownBy(pieces[1..])
  }

  function ShownByOne(p: Piece): seq<Shown> {
    match p
    case OpenList => []
    case CloseList => []
    case CodePiece(lines) => CodeLines(lines)
    case _ => [Own(p)]
  }

  /** What is to be seen of a document: line by line, with nothing but the fences to switch code on and off. */
  function Visible(inCode: bool, lines: seq<string>): seq<Shown>
    decreases |lines|
  {
    if lines == [] then []
    else if IsFence(lines[0]) then Visible(!inCode, lines[1..])
    else [if inCode then CodeLine(lines[0]) else Own(LinePiece(lines[0]))] + Visible(inCode, lines[1..])
  }

  function LinePiece(line: string): Piece
    requires !IsFence(line)
  {
    match Classify(line)
    case HeadingLine(text) => HeadingPiece(text)
    case ItemLine(text) => ItemPiece(text)
    case BlankLine => GapPiece
    case TextLine(text) => ParagraphPiece(text)
  }

  lemma {:induction false} ShownConcat(a: seq<Piece>, b: seq<Piece>)
    ensures ShownBy(a + b) == ShownBy(a) + ShownBy(b)
  {
    if a == [] {
      assert a + b == b;
    } else {
      assert (a + b)[0] == a[0] && (a + b)[1..] == a[1..] + b;
      ShownConcat(a[1..], b);
    }
  }

  lemma ShownOne(p: Piece, rest: seq<Piece>)
    ensures ShownBy([p] + rest) == ShownByOne(p) + ShownBy(rest)
  {
    assert ([p] + rest)[1..] == rest;
  }

  lemma {:induction false} CodeLinesConcat(a: seq<string>, b: seq<string>)
    ensures CodeLines(a + b) == CodeLines(a) + CodeLines(b)
  {
    if a == [] {
      assert a + b == b;
    } else {
      assert (a + b)[0] == a[0] && (a + b)[1..] == a[1..] + b;
      CodeLinesConcat(a[1..], b);
    }
  }

  lemma ShownClosing(inList: bool, rest: seq<Piece>)
    ensures ShownBy(Closing(inList) + rest) == ShownBy(rest)
  {
    if inList {
      ShownOne(CloseList, rest);
      assert [] + ShownBy(rest) == ShownBy(rest);
    } else {
      assert [] + rest == rest;
    }
  }

  /** From each state of the renderer, what is still to be printed shows the lines read so far and those still to come. */
  lemma {:induction false} RemainingShows(inCode: bool, codeLines: seq<string>, inList: bool, lines: seq<string>)
    requires forall line | line in codeLines :: !IsFence(line)
    requires (!inCode ==> codeLines == []) && !(inCode && inList)
    ensures ShownBy(Remaining(inCode, codeLines, inList, lines)) == CodeLines(codeLines) + Visible(inCode, lines)
    decreases |lines|, 3
  {
    if lines == [] {
      NothingRemains(inCode, codeLines, inList);
    } else if inCode {
      CodeShows(codeLines, lines);
    } else {
      LineShows(inList, lines);
    }
  }

  lemma NothingRemains(inCode: bool, codeLines: seq<string>, inList: bool)
    requires forall line | line in codeLines :: !IsFence(line)
    requires (!inCode ==> codeLines == []) && !(inCode && inList)
    ensures ShownBy(Remaining(inCode, codeLines, inList, [])) == CodeLines(codeLines)
  {
    if inCode {
      assert codeLines + [] == codeLines;
      if codeLines != [] {
        assert CodeBlock(codeLines, []) == [Code(codeLines)];
        assert [Code(codeLines)] + [] == [Code(codeLines)];
        PrintOne(Code(codeLines), []);
        ShownOne(CodePiece(codeLines), []);
      }
    } else {
      ListEnds(inList, []);
      ShownClosing(inList, []);
    }
  }

  lemma {:induction false} CodeShows(codeLines: seq<string>, lines: seq<string>)
    requires lines != [] && forall line | line in codeLines :: !IsFence(line)
    ensures ShownBy(Remaining(true, codeLines, false, lines)) == CodeLines(codeLines) + Visible(true, lines)
    decreases |lines|, 0
  {
    hide Parse, Print, CodeBlock;
    if IsFence(lines[0]) {
      FenceCloses(codeLines, lines);
      ShownOne(CodePiece(codeLines), Remaining(false, [], false, lines[1..]));
      RemainingShows(false, [], false, lines[1..]);
    } else {
      CodeContinues(codeLines, lines);
      RemainingShows(true, codeLines + [lines[0]], false, lines[1..]);
      CodeLinesConcat(codeLines, [lines[0]]);
      assert CodeLines([lines[0]]) == [CodeLine(lines[0])];
    }
  }

  lemma {:induction false} LineShows(inList: bool, lines: seq<string>)
    requires lines != []
    ensures ShownBy(Remaining(false, [], inList, lines)) == Visible(false, lines)
    decreases |lines|, 2
  {
    if Classify(lines[0]).ItemLine? {
      ItemShows(lines);
      if !inList {
        ListBegins(lines);
        ShownOne(OpenList, AfterItem(lines));
      }
    } else {
      hide Parse, Print, Visible;
      ListEnds(inList, lines);
      ShownClosing(inList, Print(Parse(lines)));
      NoItemShows(lines);
    }
  }

  lemma {:induction false} NoItemShows(lines: seq<string>)
    requires lines != [] && !Classify(lines[0]).ItemLine?
    ensures ShownBy(Print(Parse(lines))) == Visible(false, lines)
    decreases |lines|, 1
  {
    hide Parse, Print, CodeBlock;
    var rest := lines[1..];
    if IsFence(lines[0]) {
      FenceOpens(lines);
      RemainingShows(true, [], false, rest);
    } else {
      LineBlock(lines);
      ShownOne(LinePiece(lines[0]), Print(Parse(rest)));
      RemainingShows(false, [], false, rest);
    }
  }

  lemma {:induction false} ItemShows(lines: seq<string>)
    requires lines != [] && Classify(lines[0]).ItemLine?
    ensures ShownBy(AfterItem(lines)) == Visible(false, lines)
    decreases |lines|, 1
  {
    ItemContinues(lines);
    ShownOne(LinePiece(lines[0]), AfterItem(lines[1..]));
    RemainingShows(false, [], true, lines[1..]);
  }

  /**
    What is printed for a document shows every line that is no fence exactly once and in order: as a piece
    of its own with the line's text, or, between fences, as a line of code.
   */
  lemma PrintedLinesAreVisible(lines: seq<string>)
    ensures ShownBy(Print(Parse(lines))) == Visible(false, lines)
  {
    RemainingShows(false, [], false, lines);
  }

  /** One for each line that is no fence, and made of that line. */
  lemma {:induction false} VisibleIsEachLine(inCode: bool, lines: seq<string>)
    ensures |Visible(inCode, lines)| == |WithoutFences(lines)|
    ensures forall i | 0 <= i < |WithoutFences(lines)| ::
              && !IsFence(WithoutFences(lines)[i])
              && Visible(inCode, lines)[i] in {CodeLine(WithoutFences(lines)[i]), Own(LinePiece(WithoutFences(lines)[i]))}
    decreases |lines|
  {
    if lines != [] {
      VisibleIsEachLine(if IsFence(lines[0]) then !inCode else inCode, lines[1..]);
    }
  }
}
