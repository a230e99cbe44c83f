/**
  Slash-separated paths: the one-pass buffer algorithm of Go's `path.Clean`, which the package parser
  relies on, against resolution by walking a stack of names.
 */
module PathClean {
  import opened Basics
  import opened Text

  // ---------- resolution by a stack ----------

  /** One path component: nothing and "." stay, ".." goes up (or out, if the path is relative), a name goes down. */
  function Enter(rooted: bool, stack: seq<string>, component: string): seq<string> {
    if component == "" || component == "." then stack
    else if component != ".." then stack + [component]
    else if stack != [] && stack[|stack| - 1] != ".." then stack[..|stack| - 1]
    else if rooted then stack
    else stack + [".."]
  }

  function Walk(rooted: bool, stack: seq<string>, components: seq<string>): seq<string>
    decreases components
  {
    if components == [] then stack else Walk(rooted, Enter(rooted, stack, components[0]), components[1..])
  }

  function Render(rooted: bool, stack: seq<string>): string {
    (if rooted then "/" else "") + Join(stack, "/")
  }

  predicate Rooted(path: string) {
    path != "" && path[0] == '/'
  }

  /** Where the path leads. */
  function Resolve(path: string): seq<string> {
    Walk(Rooted(path), [], Split(path, '/'))
  }

  function Clean(path: string): string {
    var out := Render(Rooted(path), Resolve(path));
    if out == "" then "." else out
  }

  // ---------- stacks in normal form ----------

  predicate IsName(s: string) {
    s != "" && s != "." && s != ".." && '/' !in s
  }

  /** The number of leading "..". */
  function Dots(stack: seq<string>): (n: nat)
    ensures n <= |stack|
  {
    if stack != [] && stack[0] == ".." then 1 + Dots(stack[1..]) else 0
  }

  /** Leading "..", then names; none of the former under a root. */
  predicate Normal(rooted: bool, stack: seq<string>) {
    && (forall i | 0 <= i < Dots(stack) :: stack[i] == "..")
    && (forall i | Dots(stack) <= i < |stack| :: IsName(stack[i]))
    && (rooted ==> Dots(stack) == 0)
  }

  lemma {:induction false} DotsIs(stack: seq<string>, n: nat)
    requires n <= |stack|
    requires forall i | 0 <= i < n :: stack[i] == ".."
    requires n == |stack| || stack[n] != ".."
    ensures Dots(stack) == n
  {
    if n > 0 {
      DotsIs(stack[1..], n - 1);
    }
  }

  lemma EnterNormal(rooted: bool, stack: seq<string>, component: string)
    requires Normal(rooted, stack) && '/' !in component
    ensures Normal(rooted, Enter(rooted, stack, component))
  {
    var next := Enter(rooted, stack, component);
    var d := Dots(stack);
    if |next| < |stack| {
      DotsIs(next, d);
    } else if |next| > |stack| && component == ".." {
      assert d == |stack|;
      DotsIs(next, d + 1);
    } else if |next| > |stack| {
      DotsIs(next, d);
    }
  }

  lemma {:induction false} WalkNormal(rooted: bool, stack: seq<string>, components: seq<string>)
    requires Normal(rooted, stack) && forall c | c in components :: '/' !in c
    ensures Normal(rooted, Walk(rooted, stack, components))
    decreases components
  {
    if components != [] {
      assert components[0] in components;
      EnterNormal(rooted, stack, components[0]);
      WalkNormal(rooted, Enter(rooted, stack, components[0]), components[1..]);
    }
  }

  lemma ResolveNormal(path: string)
    ensures Normal(Rooted(path), Resolve(path))
  {
    WalkNormal(Rooted(path), [], Split(path, '/'));
  }

  // ---------- splitting off one component ----------

  lemma {:induction false} SplitComponent(component: string, rest: string)
    requires '/' !in component && (rest == "" || rest[0] == '/')
    ensures Split(component + rest, '/') == [component] + Split(rest, '/')[1..]
    ensures Split(rest, '/')[0] == ""
  {
    if component == "" {
      assert component + rest == rest;
    } else {
      assert component[0] in component;
      assert (component + rest)[1..] == component[1..] + rest;
      SplitComponent(component[1..], rest);
      assert component == [component[0]] + component[1..];
    }
  }

  /** Reading one component moves the walk on by one step. */
  lemma WalkComponent(rooted: bool, stack: seq<string>, component: string, rest: string)
    requires '/' !in component && (rest == "" || rest[0] == '/')
    ensures Walk(rooted, stack, Split(component + rest, '/'))
         == Walk(rooted, Enter(rooted, stack, component), Split(rest, '/'))
  {
    SplitComponent(component, rest);
    var parts := Split(rest, '/');
    assert ([component] + parts[1..])[1..] == parts[1..];
    assert Enter(rooted, Enter(rooted, stack, component), "") == Enter(rooted, stack, component);
  }

  lemma WalkSlash(rooted: bool, stack: seq<string>, rest: string)
    ensures Walk(rooted, stack, Split("/" + rest, '/')) == Walk(rooted, stack, Split(rest, '/'))
  {
    assert ("/" + rest)[1..] == rest;
    var parts := Split(rest, '/');
    assert ([""] + parts)[1..] == parts;
  }

  // ---------- the buffer ----------

  lemma {:induction false} JoinLast(stack: seq<string>, last: string)
    ensures Join(stack + [last], "/") == if stack == [] then last else Join(stack, "/") + "/" + last
  {
    if stack == [] {
      assert stack + [last] == [last];
    } else {
      JoinLast(stack[1..], last);
      assert (stack + [last])[1..] == stack[1..] + [last];
      if |stack| > 1 {
        assert stack[0] + "/" + (Join(stack[1..], "/") + "/" + last) == stack[0] + "/" + Join(stack[1..], "/") + "/" + last;
      }
    }
  }

  /** Appending a component to the buffer, with a separator unless it is the first. */
  lemma RenderLast(rooted: bool, stack: seq<string>, last: string)
    ensures Render(rooted, stack + [last])
         == Render(rooted, stack) + (if stack == [] then "" else "/") + last
  {
    JoinLast(stack, last);
  }

  lemma {:induction false} RenderLength(rooted: bool, stack: seq<string>, k: nat)
    requires k <= |stack| && forall s | s in stack :: s != ""
    ensures |Render(rooted, stack[..k])| <= |Render(rooted, stack)|
    ensures k < |stack| ==> |Render(rooted, stack[..k])| < |Render(rooted, stack)|
    ensures (stack == [] <==> |Render(rooted, stack)| == if rooted then 1 else 0)
    decreases |stack|
  {
    if stack != [] {
      var n := |stack| - 1;
      assert stack == stack[..n] + [stack[n]];
      RenderLast(rooted, stack[..n], stack[n]);
      assert stack[n] in stack && forall s | s in stack[..n] :: s in stack;
      RenderLength(rooted, stack[..n], if k <= n then k else n);
      if k <= n {
        assert stack[..n][..k] == stack[..k];
      } else {
        assert stack[..k] == stack;
      }
    } else {
      assert stack[..k] == stack;
    }
  }

  lemma NormalNonEmpty(rooted: bool, stack: seq<string>)
    requires Normal(rooted, stack)
    ensures forall s | s in stack :: s != ""
  {
  }

  /** Cutting the buffer back at its last separator, but not below `low`, drops the last component. */
  method CutBack(out: string, low: nat, ghost rooted: bool, ghost stack: seq<string>) returns (cut: string)
    requires Normal(rooted, stack) && out == Render(rooted, stack)
    requires low == |Render(rooted, stack[..Dots(stack)])| < |out|
    ensures stack != [] && stack[|stack| - 1] != ".."
    ensures cut == Render(rooted, stack[..|stack| - 1])
  {
    ghost var n := |stack| - 1;
    NormalNonEmpty(rooted, stack);
    RenderLength(rooted, stack, Dots(stack));
    assert stack[..|stack|] == stack;
    assert Dots(stack) < |stack|;
    assert stack == stack[..n] + [stack[n]];
    RenderLast(rooted, stack[..n], stack[n]);
    RenderLength(rooted, stack[..n], Dots(stack));
    assert stack[..n][..Dots(stack)] == stack[..Dots(stack)];
    ghost var base := |Render(rooted, stack[..n])|;
    var w := |out| - 1;
    while w > low && out[w] != '/'
      invariant low <= w && base <= w < |out|
    {
      w := w - 1;
    }
    if w > low {
      assert w == base;
    }
    cut := out[..w];
  }

  /** After reading `path[..r]` the buffer spells the stack, `dotdot` is where its names begin, and the rest leads to the goal. */
  ghost predicate Progress(path: string, rooted: bool, r: nat, out: string, dotdot: nat, stack: seq<string>) {
    && r <= |path|
    && Normal(rooted, stack) && out == Render(rooted, stack)
    && dotdot == |Render(rooted, stack[..Dots(stack)])|
    && Walk(rooted, stack, Split(path[r..], '/')) == Resolve(path)
  }

  lemma Begin(path: string)
    requires path != ""
    ensures Rooted(path) ==> Progress(path, true, 1, "/", 1, [])
    ensures !Rooted(path) ==> Progress(path, false, 0, "", 0, [])
  {
    assert path[0..] == path;
    if Rooted(path) {
      assert path == "/" + path[1..];
      WalkSlash(true, [], path[1..]);
    }
  }

  lemma SkipSlash(path: string, rooted: bool, r: nat, out: string, dotdot: nat, stack: seq<string>)
    requires Progress(path, rooted, r, out, dotdot, stack) && r < |path| && path[r] == '/'
    ensures Progress(path, rooted, r + 1, out, dotdot, stack)
  {
    assert path[r..] == "/" + path[r + 1..];
    WalkSlash(rooted, stack, path[r + 1..]);
  }

  lemma SkipDot(path: string, rooted: bool, r: nat, out: string, dotdot: nat, stack: seq<string>)
    requires Progress(path, rooted, r, out, dotdot, stack) && r < |path|
    requires path[r] == '.' && (r + 1 == |path| || path[r + 1] == '/')
    ensures Progress(path, rooted, r + 1, out, dotdot, stack)
  {
    assert path[r..] == "." + path[r + 1..];
    WalkComponent(rooted, stack, ".", path[r + 1..]);
  }

  lemma ReadName(path: string, rooted: bool, r: nat, out: string, dotdot: nat, stack: seq<string>, end: nat)
    requires Progress(path, rooted, r, out, dotdot, stack)
    requires r < end <= |path| && IsName(path[r..end]) && (end == |path| || path[end] == '/')
    ensures var sep := if |out| == (if rooted then 1 else 0) then "" else "/";
            Progress(path, rooted, end, out + sep + path[r..end], dotdot, stack + [path[r..end]])
  {
    assert path[r..] == path[r..end] + path[end..];
    WalkComponent(rooted, stack, path[r..end], path[end..]);
    GoDown(rooted, stack, path[r..end]);
  }

  lemma Finish(path: string, rooted: bool, out: string, dotdot: nat, stack: seq<string>)
    requires Progress(path, rooted, |path|, out, dotdot, stack) && rooted == Rooted(path)
    ensures Clean(path) == if out == "" then "." else out
  {
    assert path[|path|..] == "";
    assert Split("", '/') == [""];
    assert Walk(rooted, stack, [""]) == stack;
  }

  /** `path.Clean`: one pass over the path, writing into a buffer that is only extended and cut back. */
  method PathClean(path: string) returns (out: string)
    ensures out == Clean(path)
  {
    if path == "" {
      return ".";
    }
    var rooted := path[0] == '/';
    var n := |path|;
    out := "";
    var r, dotdot := 0, 0;
    ghost var stack: seq<string> := [];
    if rooted {
      out := "/";
      r, dotdot := 1, 1;
    }
    Begin(path);
    while r < n
      invariant Progress(path, rooted, r, out, dotdot, stack)
    {
      if path[r] == '/' {
        SkipSlash(path, rooted, r, out, dotdot, stack);
        r := r + 1;
      } else if path[r] == '.' && (r + 1 == n || path[r + 1] == '/') {
        SkipDot(path, rooted, r, out, dotdot, stack);
        r := r + 1;
      } else if path[r] == '.' && path[r + 1] == '.' && (r + 2 == n || path[r + 2] == '/') {
        out, dotdot, stack := GoUp(path, rooted, r, out, dotdot, stack);
        r := r + 2;
      } else {
        ghost var before, start := out, r;
        if (rooted && |out| != 1) || (!rooted && |out| != 0) {
          out := out + "/";
        }
        out, r := CopyName(path, out, r);
        NameAt(path, start, r);
        ReadName(path, rooted, start, before, dotdot, stack, r);
        stack := stack + [path[start..r]];
      }
    }
    Finish(path, rooted, out, dotdot, stack);
    if out == "" {
      out := ".";
    }
  }

  method CopyName(path: string, out: string, r: nat) returns (out': string, r': nat)
    requires r < |path| && path[r] != '/'
    ensures r < r' <= |path| && out' == out + path[r..r'] && '/' !in path[r..r']
    ensures r' == |path| || path[r'] == '/'
  {
    out', r' := out, r;
    while r' < |path| && path[r'] != '/'
      invariant r <= r' <= |path| && out' == out + path[r..r'] && '/' !in path[r..r']
    {
      out' := out' + [path[r']];
      r' := r' + 1;
    }
  }

  /** What is neither "." nor ".." up to the next slash is a name. */
  lemma NameAt(path: string, start: nat, end: nat)
    requires start < end <= |path| && '/' !in path[start..end] && (end == |path| || path[end] == '/')
    requires !(path[start] == '.' && (start + 1 == |path| || path[start + 1] == '/'))
    requires !(path[start] == '.' && path[start + 1] == '.' && (start + 2 == |path| || path[start + 2] == '/'))
    ensures IsName(path[start..end])
  {
    var name := path[start..end];
    assert name[0] == path[start];
    if |name| > 1 {
      assert name[1] == path[start + 1];
    }
  }

  /** The ".." case: cut back if there is a name to drop, else write ".." unless the path is rooted. */
  method GoUp(path: string, rooted: bool, r: nat, out: string, dotdot: nat, ghost stack: seq<string>)
    returns (out': string, dotdot': nat, ghost stack': seq<string>)
    requires Progress(path, rooted, r, out, dotdot, stack)
    requires r + 2 <= |path| && path[r] == '.' && path[r + 1] == '.' && (r + 2 == |path| || path[r + 2] == '/')
    ensures Progress(path, rooted, r + 2, out', dotdot', stack')
  {
    assert path[r..] == ".." + path[r + 2..];
    WalkComponent(rooted, stack, "..", path[r + 2..]);
    out', dotdot', stack' := DropName(rooted, out, dotdot, stack);
  }

  method DropName(rooted: bool, out: string, dotdot: nat, ghost stack: seq<string>)
    returns (out': string, dotdot': nat, ghost stack': seq<string>)
    requires Normal(rooted, stack) && out == Render(rooted, stack)
    requires dotdot == |Render(rooted, stack[..Dots(stack)])|
    ensures stack' == Enter(rooted, stack, "..")
    ensures Normal(rooted, stack') && out' == Render(rooted, stack')
    ensures dotdot' == |Render(rooted, stack'[..Dots(stack')])|
  {
    EnterNormal(rooted, stack, "..");
    NormalNonEmpty(rooted, stack);
    RenderLength(rooted, stack, Dots(stack));
    RenderLength(rooted, stack, 0);
    assert stack[..|stack|] == stack;
    out', dotdot', stack' := out, dotdot, stack;
    if |out| > dotdot {
      out' := CutBack(out, dotdot, rooted, stack);
      stack' := stack[..|stack| - 1];
      DotsIs(stack', Dots(stack));
      assert stack'[..Dots(stack)] == stack[..Dots(stack)];
    } else if !rooted {
      if |out| > 0 {
        out' := out' + "/";
      }
      out' := out' + "..";
      dotdot' := |out'|;
      stack' := stack + [".."];
      RenderLast(rooted, stack, "..");
      DotsIs(stack', |stack'|);
      assert stack'[..|stack'|] == stack';
    } else {
      assert stack == [];
    }
  }

  /** The name case. */
  lemma GoDown(rooted: bool, stack: seq<string>, component: string)
    requires Normal(rooted, stack) && IsName(component)
    ensures Enter(rooted, stack, component) == stack + [component]
    ensures Normal(rooted, stack + [component])
    ensures (stack + [component])[..Dots(stack + [component])] == stack[..Dots(stack)]
    ensures Render(rooted, stack + [component])
         == Render(rooted, stack) + (if |Render(rooted, stack)| == (if rooted then 1 else 0) then "" else "/") + component
  {
    EnterNormal(rooted, stack, component);
    NormalNonEmpty(rooted, stack);
    RenderLength(rooted, stack, 0);
    RenderLast(rooted, stack, component);
    DotsIs(stack + [component], Dots(stack));
  }

  // ---------- safe paths ----------

  function ReplaceBackslashes(s: string): (r: string)
    ensures |r| == |s|
    ensures forall i | 0 <= i < |s| :: r[i] == if s[i] == '\\' then '/' else s[i]
  {
    seq(|s|, i requires 0 <= i < |s| => if s[i] == '\\' then '/' else s[i])
  }

  datatype PathError = UnsafePath(name: string)

  function SafeZipPath(name: string): Result<string, PathError> {
    var cleaned := Clean(ReplaceBackslashes(name));
    if cleaned == "." || cleaned == ".." || Rooted(cleaned) || HasPrefix(cleaned, "../") then Err(UnsafePath(name))
    else Ok(cleaned)
  }

  method CheckZipPath(name: string) returns (r: Result<string, PathError>)
    ensures r == SafeZipPath(name)
  {
    var normalized := ReplaceBackslashes(name);
    var cleaned := PathClean(normalized);
    if cleaned == "." || cleaned == ".." || Rooted(cleaned) || HasPrefix(cleaned, "../") {
      return Err(UnsafePath(name));
    }
    r := Ok(cleaned);
  }

  /** The path stays below the directory it starts in: it is relative, and its resolution is one or more plain names. */
  predicate StaysInside(name: string) {
    var path := ReplaceBackslashes(name);
    !Rooted(path) && Resolve(path) != [] && forall c | c in Resolve(path) :: IsName(c)
  }

  lemma RenderHead(rooted: bool, stack: seq<string>)
    requires Normal(rooted, stack)
    ensures !rooted && stack != [] ==> Render(rooted, stack) != "" && Render(rooted, stack)[0] == stack[0][0]
    ensures !rooted && stack != [] ==>
              (Dots(stack) > 0 <==> Render(rooted, stack) == ".." || HasPrefix(Render(rooted, stack), "../"))
  {
    if !rooted && stack != [] {
      assert IsName(stack[0]) || stack[0] == "..";
      if Dots(stack) == 0 {
        NameIsNotDotDot(stack);
      }
    }
  }

  lemma NameIsNotDotDot(stack: seq<string>)
    requires stack != [] && IsName(stack[0])
    ensures Join(stack, "/") != ".." && !HasPrefix(Join(stack, "/"), "../")
    ensures Join(stack, "/") != "." && Join(stack, "/")[0] != '/'
  {
    var head := stack[0];
    var all := Join(stack, "/");
    assert head[0] in head;
    assert all[..|head|] == head;
    if |head| > 2 {
      assert head[2] in head;
    }
    if |stack| > 1 {
      assert all[|head|] == '/';
    }
  }

  /**
    A name is accepted exactly when it stays inside, and the result is its resolution, spelled with
    single slashes: nonempty, relative, without empty, "." or ".." components.
   */
  lemma AcceptedIffInside(name: string)
    ensures SafeZipPath(name).Ok? <==> StaysInside(name)
    ensures SafeZipPath(name).Ok? ==>
              var path := SafeZipPath(name).value;
              && path == Join(Resolve(ReplaceBackslashes(name)), "/")
              && Split(path, '/') == Resolve(ReplaceBackslashes(name))
              && path != "" && !Rooted(path)
              && forall c | c in Split(path, '/') :: IsName(c)
  {
    var path := ReplaceBackslashes(name);
    var stack := Resolve(path);
    ResolveNormal(path);
    RenderHead(Rooted(path), stack);
    if !Rooted(path) && stack != [] && Dots(stack) == 0 {
      NameIsNotDotDot(stack);
      forall c | c in stack ensures IsName(c) {
      }
      SplitOfJoin(stack, '/');
    }
    if StaysInside(name) {
      assert stack[0] in stack;
      DotsIs(stack, 0);
    }
  }

  lemma AcceptedNonEmpty(name: string)
    requires SafeZipPath(name).Ok?
    ensures SafeZipPath(name).value != ""
  {
    AcceptedIffInside(name);
  }

  lemma {:induction false} WalkCharacters(rooted: bool, stack: seq<string>, components: seq<string>, bad: char)
    requires bad != '.' && (forall c | c in components :: bad !in c) && forall c | c in stack :: bad !in c
    ensures forall c | c in Walk(rooted, stack, components) :: bad !in c
    decreases components
  {
    if components != [] {
      assert components[0] in components;
      WalkCharacters(rooted, Enter(rooted, stack, components[0]), components[1..], bad);
    }
  }

  lemma {:induction false} SplitCharacters(s: string, sep: char, bad: char)
    requires bad !in s
    ensures forall p | p in Split(s, sep) :: bad !in p
  {
    if s != [] {
      SplitCharacters(s[1..], sep, bad);
      var rest := Split(s[1..], sep);
      assert rest[0] in rest;
    }
  }

  lemma {:induction false} JoinCharacters(parts: seq<string>, bad: char)
    requires bad != '/' && forall p | p in parts :: bad !in p
    ensures bad !in Join(parts, "/")
  {
    if |parts| > 1 {
      JoinCharacters(parts[1..], bad);
    }
  }

  /** No accepted path contains a backslash. */
  lemma NoBackslash(name: string)
    requires SafeZipPath(name).Ok?
    ensures '\\' !in SafeZipPath(name).value
  {
    var path := ReplaceBackslashes(name);
    AcceptedIffInside(name);
    SplitCharacters(path, '/', '\\');
    WalkCharacters(Rooted(path), [], Split(path, '/'), '\\');
    JoinCharacters(Resolve(path), '\\');
  }

  lemma {:induction false} WalkNames(stack: seq<string>, names: seq<string>)
    requires forall c | c in names :: IsName(c)
    ensures Walk(false, stack, names) == stack + names
    decreases names
  {
    if names == [] {
      assert stack + names == stack;
    } else {
      assert names[0] in names;
      WalkNames(stack + [names[0]], names[1..]);
      assert stack + [names[0]] + names[1..] == stack + names;
    }
  }

  /** Checking an accepted path again changes nothing. */
  lemma SafeZipPathIdempotent(name: string)
    requires SafeZipPath(name).Ok?
    ensures SafeZipPath(SafeZipPath(name).value) == SafeZipPath(name)
  {
    AcceptedIffInside(name);
    NoBackslash(name);
    var path := SafeZipPath(name).value;
    var names := Split(path, '/');
    assert ReplaceBackslashes(path) == path;
    WalkNames([], names);
    assert [] + names == names;
    assert Resolve(path) == names;
    AcceptedIffInside(path);
  }
}
