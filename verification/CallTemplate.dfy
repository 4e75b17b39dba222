/** Filling the path placeholders of a URL template (go/kei/calltemplate/request.go): the
    repeated find-and-replace is a single left-to-right expansion. */
module CallTemplate {
  import opened Bytes
  import opened Options

  const OPEN: Byte := 123
  const CLOSE: Byte := 125
  const PERCENT: Byte := 37
  const SLASH: Byte := 47
  const QUESTION: Byte := 63
  const HASH: Byte := 35

  /** A tool call argument: a composite one is rendered as JSON, which may fail. */
  datatype ArgValue = Str(s: Text) | Number(rendered: Text) | Flag(b: bool) | Nil | Composite(json: Option<Text>)

  const TRUE: Text := [116, 114, 117, 101]
  const FALSE: Text := [102, 97, 108, 115, 101]
  const PATH: Text := [112, 97, 116, 104]

  function ArgToString(v: ArgValue): Option<Text> {
    match v
    case Str(s) => Some(s)
    case Number(s) => Some(s)
    case Flag(b) => Some(if b then TRUE else FALSE)
    case Nil => Some([])
    case Composite(json) => json
  }

  datatype FillError =
    | Unmatched
    | NoDefinition(name: Text)
    | NotInPath(name: Text)
    | MissingArgument(name: Text)
    | Unconvertible(name: Text)
    | EmptyArgument(name: Text)

  datatype Result = Ok(text: Text) | Err(error: FillError)

  // ---- Percent-encoding of a path segment (section 2.1 of RFC 3986) ----

  predicate Plain(b: Byte) {
    || 97 <= b <= 122 || 65 <= b <= 90 || 48 <= b <= 57
    || b in {45, 95, 46, 126}
    || b in {36, 38, 43, 58, 61, 64}
  }

  function HexUpper(d: int): Byte
    requires 0 <= d < 16
  {
    if d < 10 then (48 + d) as Byte else (55 + d) as Byte
  }

  function EscapeByte(b: Byte): Text {
    if Plain(b) then [b] else [PERCENT, HexUpper(b as int / 16), HexUpper(b as int % 16)]
  }

  function PathEscape(s: Text): Text {
    if s == [] then [] else EscapeByte(s[0]) + PathEscape(s[1..])
  }

  /** Only plain characters and the percent sign come out. */
  lemma {:induction false} PathEscapeIsPlain(s: Text)
    ensures forall i :: 0 <= i < |PathEscape(s)| ==> Plain(PathEscape(s)[i]) || PathEscape(s)[i] == PERCENT
  {
    if s != [] { PathEscapeIsPlain(s[1..]); }
  }

  function HexUpperValue(b: Byte): int {
    if 48 <= b <= 57 then b as int - 48 else if 65 <= b <= 70 then b as int - 55 else -1
  }

  function PathUnescape(t: Text): Option<Text>
    decreases |t|
  {
    if t == [] then Some([])
    else if t[0] == PERCENT then
      if |t| < 3 || HexUpperValue(t[1]) < 0 || HexUpperValue(t[2]) < 0 then None
      else
        var rest := PathUnescape(t[3..]);
        if rest.None? then None else Some([(HexUpperValue(t[1]) * 16 + HexUpperValue(t[2])) as Byte] + rest.value)
    else
      var rest := PathUnescape(t[1..]);
      if rest.None? then None else Some([t[0]] + rest.value)
  }

  /** Nothing is lost in the encoding. */
  lemma {:induction false} PathEscapeBack(s: Text)
    ensures PathUnescape(PathEscape(s)) == Some(s)
  {
    if s != [] {
      PathEscapeBack(s[1..]);
      var t, b := PathEscape(s), s[0];
      assert s == [b] + s[1..];
      if Plain(b) {
        assert t[0] == b && t[1..] == PathEscape(s[1..]);
      } else {
        assert t[0] == PERCENT && t[1] == HexUpper(b as int / 16) && t[2] == HexUpper(b as int % 16);
        assert t[3..] == PathEscape(s[1..]);
      }
    }
  }

  /** What a path segment may hold as it is: letters, digits and these marks. */
  predicate Unreserved(c: char) {
    'a' <= c <= 'z' || 'A' <= c <= 'Z' || '0' <= c <= '9' || c in "-_.~$&+:=@"
  }

  lemma {:induction false} PathEscapeJoins(a: Text, b: Text)
    ensures PathEscape(a + b) == PathEscape(a) + PathEscape(b)
  {
    if a == [] {
      assert a + b == b;
    } else {
      PathEscapeJoins(a[1..], b);
      assert (a + b)[0] == a[0] && (a + b)[1..] == a[1..] + b;
      Regroup(EscapeByte(a[0]), PathEscape(a[1..]), PathEscape(b));
    }
  }

  /** The encoding goes byte by byte: an unreserved one stays, any other becomes a percent sign
      and its two upper-case hexadecimal digits. */
  lemma PathEscapeExactly(before: Text, b: Byte, after: Text) returns (t: Text)
    ensures PathEscape(before + [b] + after) == PathEscape(before) + t + PathEscape(after)
    ensures if Unreserved((b as int) as char) then t == [b]
            else
              && |t| == 3 && t[0] == 37
              && t[1] as int == "0123456789ABCDEF"[b as int / 16] as int
              && t[2] as int == "0123456789ABCDEF"[b as int % 16] as int
  {
    t := EscapeByte(b);
    PathEscapeJoins(before + [b], after);
    PathEscapeJoins(before, [b]);
    assert PathEscape([b]) == t + PathEscape([]);
    HexUpperDigit(b as int / 16);
    HexUpperDigit(b as int % 16);
    PlainExactly(b);
  }

  lemma PlainExactly(b: Byte)
    ensures Plain(b) <==> Unreserved((b as int) as char)
  {
  }

  lemma HexUpperDigit(d: int)
    requires 0 <= d < 16
    ensures HexUpper(d) as int == "0123456789ABCDEF"[d] as int
  {
    assert d in {0, 1, 2, 3, 4, 5, 6, 7, 8, 9, 10, 11, 12, 13, 14, 15};
  }

  // ---- One placeholder ----

  datatype Call = Call(defined: map<Text, Text>, args: map<Text, ArgValue>)

  /** What a placeholder is replaced with: `defined` gives where each declared argument
      goes. */
  function Lookup(c: Call, name: Text): Result {
    if name !in c.defined then Err(NoDefinition(name))
    else if c.defined[name] != PATH then Err(NotInPath(name))
    else if name !in c.args then Err(MissingArgument(name))
    else
      var s := ArgToString(c.args[name]);
      if s.None? then Err(Unconvertible(name))
      else if s.value == [] then Err(EmptyArgument(name))
      else Ok(PathEscape(s.value))
  }

  // ---- Searching ----

  function IndexOf(t: Text, b: Byte): (i: int)
    ensures -1 <= i < |t| && (i == -1 <==> b !in t)
    ensures i >= 0 ==> t[i] == b && b !in t[..i]
  {
    if t == [] then -1
    else if t[0] == b then 0
    else
      var i := IndexOf(t[1..], b);
      assert t == [t[0]] + t[1..];
      assert i >= 0 ==> t[..i + 1] == [t[0]] + t[1..][..i];
      if i == -1 then -1 else i + 1
  }

  predicate OccursAt(t: Text, sub: Text, i: int) {
    0 <= i <= |t| - |sub| && t[i..i + |sub|] == sub
  }

  /** The first place at which `sub` occurs, or -1. */
  function FindFrom(t: Text, sub: Text, from: nat): (i: int)
    requires from <= |t|
    ensures i >= 0 ==> from <= i && OccursAt(t, sub, i) && forall k :: from <= k < i ==> !OccursAt(t, sub, k)
    ensures i < 0 ==> forall k :: from <= k <= |t| ==> !OccursAt(t, sub, k)
    decreases |t| - from
  {
    if OccursAt(t, sub, from) then from
    else if from == |t| then -1
    else FindFrom(t, sub, from + 1)
  }

  function ReplaceFirst(t: Text, sub: Text, by_: Text): Text {
    var i := FindFrom(t, sub, 0);
    if i < 0 then t else t[..i] + by_ + t[i + |sub|..]
  }

  function CountOf(t: Text, b: Byte): nat {
    if t == [] then 0 else CountOf(t[1..], b) + if t[0] == b then 1 else 0
  }

  lemma {:induction false} CountJoin(x: Text, y: Text, b: Byte)
    ensures CountOf(x + y, b) == CountOf(x, b) + CountOf(y, b)
  {
    if x == [] {
      assert x + y == y;
    } else {
      assert (x + y)[1..] == x[1..] + y;
      CountJoin(x[1..], y, b);
    }
  }

  lemma {:induction false} CountNone(x: Text, b: Byte)
    ensures CountOf(x, b) == 0 <==> b !in x
  {
    if x != [] {
      CountNone(x[1..], b);
      assert x == [x[0]] + x[1..];
    }
  }

  // ---- The first placeholder ----

  datatype Cut = NoBrace | Unclosed(before: Text) | Placeholder(before: Text, name: Text, tail: Text)

  /** A text around its first open brace and the first close brace after that. */
  function CutFirst(t: Text): (r: Cut)
    ensures r.Placeholder? ==> |r.before| + |r.name| + |r.tail| + 2 == |t|
  {
    var start := IndexOf(t, OPEN);
    if start == -1 then NoBrace
    else
      var end := IndexOf(t[start + 1..], CLOSE);
      if end == -1 then Unclosed(t[..start])
      else Placeholder(t[..start], t[start + 1..start + end + 1], t[start + end + 2..])
  }

  function Braced(name: Text): Text {
    [OPEN] + name + [CLOSE]
  }

  lemma {:induction false} IndexUnique(t: Text, b: Byte, i: nat)
    requires i < |t| && t[i] == b && b !in t[..i]
    ensures IndexOf(t, b) == i
  {
    if i > 0 {
      assert t[..i][0] == t[0];
      assert t[..i] == [t[0]] + t[1..][..i - 1];
      IndexUnique(t[1..], b, i - 1);
    }
  }

  lemma SpellAround(t: Text, start: nat, end: nat)
    requires start + end + 2 <= |t| && t[start] == OPEN && t[start + end + 1] == CLOSE
    ensures t == t[..start] + Braced(t[start + 1..start + end + 1]) + t[start + end + 2..]
    ensures t[start..start + end + 2] == Braced(t[start + 1..start + end + 1])
  {
  }

  /** What a cut says about the text. */
  ghost predicate Spells(r: Cut, t: Text) {
    match r
    case NoBrace => OPEN !in t
    case Unclosed(before) =>
      |before| < |t| && t == before + [OPEN] + t[|before| + 1..] && OPEN !in before && CLOSE !in t[|before| + 1..]
    case Placeholder(before, name, tail) => t == before + Braced(name) + tail && OPEN !in before && CLOSE !in name
  }

  lemma SliceSlice(t: Text, a: nat, n: nat)
    requires a + n <= |t|
    ensures t[a..][..n] == t[a..a + n]
  {
  }

  lemma CutFrom(t: Text, start: nat, end: nat)
    requires IndexOf(t, OPEN) == start && IndexOf(t[start + 1..], CLOSE) == end
    ensures CutFirst(t) == Placeholder(t[..start], t[start + 1..start + end + 1], t[start + end + 2..])
  {
  }

  lemma PlaceholderSpells(t: Text, start: nat, end: nat)
    requires IndexOf(t, OPEN) == start && IndexOf(t[start + 1..], CLOSE) == end
    ensures Spells(Placeholder(t[..start], t[start + 1..start + end + 1], t[start + end + 2..]), t)
  {
    assert t[start + 1..][end] == t[start + end + 1];
    SpellAround(t, start, end);
    SliceSlice(t, start + 1, end);
  }

  lemma UnclosedSpells(t: Text, start: nat)
    requires IndexOf(t, OPEN) == start && IndexOf(t[start + 1..], CLOSE) == -1
    ensures Spells(Unclosed(t[..start]), t)
  {
    assert t == t[..start] + [OPEN] + t[start + 1..];
  }

  lemma CutSpells(t: Text)
    ensures Spells(CutFirst(t), t)
  {
    var start := IndexOf(t, OPEN);
    if start >= 0 {
      var end := IndexOf(t[start + 1..], CLOSE);
      if end >= 0 {
        CutFrom(t, start, end);
        PlaceholderSpells(t, start, end);
      } else {
        UnclosedSpells(t, start);
      }
    }
  }

  lemma AroundSlices(before: Text, name: Text, tail: Text)
    ensures var t, b, n := before + Braced(name) + tail, |before|, |name|;
            && |t| == b + n + |tail| + 2 && t[b] == OPEN && t[..b] == before
            && t[b + 1..] == name + [CLOSE] + tail
            && t[b + 1..b + n + 1] == name && t[b + n + 2..] == tail
  {
  }

  lemma CutUnique(before: Text, name: Text, tail: Text)
    requires OPEN !in before && CLOSE !in name
    ensures CutFirst(before + Braced(name) + tail) == Placeholder(before, name, tail)
  {
    AroundSlices(before, name, tail);
    NameFirst(name, tail);
    BraceFirst(before, name, tail);
    CutIs(before + Braced(name) + tail, name + [CLOSE] + tail, |before|, |name|, before, name, tail);
  }

  lemma BraceFirst(before: Text, name: Text, tail: Text)
    requires OPEN !in before
    ensures IndexOf(before + Braced(name) + tail, OPEN) == |before|
  {
    AroundSlices(before, name, tail);
    IndexUnique(before + Braced(name) + tail, OPEN, |before|);
  }

  lemma CutIs(t: Text, u: Text, b: nat, n: nat, before: Text, name: Text, tail: Text)
    requires IndexOf(t, OPEN) == b && t[b + 1..] == u && IndexOf(u, CLOSE) == n
    requires t[..b] == before && t[b + 1..b + n + 1] == name && t[b + n + 2..] == tail
    ensures CutFirst(t) == Placeholder(before, name, tail)
  {
    CutFrom(t, b, n);
  }

  lemma NameFirst(name: Text, tail: Text)
    requires CLOSE !in name
    ensures var u := name + [CLOSE] + tail; u[..|name|] == name && IndexOf(u, CLOSE) == |name|
  {
    var u := name + [CLOSE] + tail;
    assert u[..|name|] == name && u[|name|] == CLOSE;
    IndexUnique(u, CLOSE, |name|);
  }

  lemma UnclosedUnique(before: Text, rest: Text)
    requires OPEN !in before && CLOSE !in rest
    ensures CutFirst(before + [OPEN] + rest) == Unclosed(before)
  {
    var t := before + [OPEN] + rest;
    assert t[|before|] == OPEN && t[..|before|] == before && t[|before| + 1..] == rest;
    IndexUnique(t, OPEN, |before|);
  }

  function Behind(done: Text, r: Cut): Cut {
    match r
    case NoBrace => NoBrace
    case Unclosed(before) => Unclosed(done + before)
    case Placeholder(before, name, tail) => Placeholder(done + before, name, tail)
  }

  /** Text without an open brace in front only lengthens what is before the cut. */
  lemma CutBehind(done: Text, todo: Text, r: Cut)
    requires OPEN !in done && Spells(r, todo)
    ensures CutFirst(done + todo) == Behind(done, r)
  {
    match r
    case NoBrace => assert OPEN !in done + todo;
    case Unclosed(before) =>
      var rest := todo[|before| + 1..];
      Regroup(done, before + [OPEN], rest);
      Regroup(done, before, [OPEN]);
      UnclosedUnique(done + before, rest);
    case Placeholder(before, name, tail) =>
      Regroup(done, before + Braced(name), tail);
      Regroup(done, before, Braced(name));
      CutUnique(done + before, name, tail);
  }

  lemma CutInTail(done: Text, todo: Text)
    requires OPEN !in done
    ensures CutFirst(done + todo) == Behind(done, CutFirst(todo))
  {
    CutSpells(todo);
    CutBehind(done, todo, CutFirst(todo));
  }

  // ---- The single expansion ----

  function After(done: Text, r: Result): Result {
    if r.Err? then r else Ok(done + r.text)
  }

  function Expand(c: Call, t: Text): Result
    decreases |t|
  {
    match CutFirst(t)
    case NoBrace => Ok(t)
    case Unclosed(_) => Err(Unmatched)
    case Placeholder(before, name, tail) =>
      var v := Lookup(c, name);
      if v.Err? then v else After(before + v.text, Expand(c, tail))
  }

  lemma AfterAfter(a: Text, b: Text, r: Result)
    ensures After(a, After(b, r)) == After(a + b, r)
  {
    if r.Ok? { assert a + (b + r.text) == a + b + r.text; }
  }

  // ---- The loop ----

  /** A placeholder that begins at the first open brace occurs nowhere before. */
  lemma ReplacesAtBrace(before: Text, name: Text, tail: Text, v: Text)
    requires OPEN !in before
    ensures ReplaceFirst(before + Braced(name) + tail, Braced(name), v) == before + v + tail
  {
    var t, sub := before + Braced(name) + tail, Braced(name);
    assert t[|before|..|before| + |sub|] == sub && t[|before| + |sub|..] == tail && t[..|before|] == before;
    assert OccursAt(t, sub, |before|);
    forall k | 0 <= k < |before| ensures !OccursAt(t, sub, k) {
      assert t[k] == before[k] && before[k] != sub[0];
      StartsDifferently(t, sub, k);
    }
  }

  lemma StartsDifferently(t: Text, sub: Text, k: nat)
    requires k < |t| && sub != [] && t[k] != sub[0]
    ensures !OccursAt(t, sub, k)
  {
    if k + |sub| <= |t| { assert t[k..k + |sub|][0] == t[k]; }
  }

  lemma ValueHasNoBrace(c: Call, name: Text)
    requires Lookup(c, name).Ok?
    ensures OPEN !in Lookup(c, name).text
  {
    PathEscapeIsPlain(ArgToString(c.args[name]).value);
  }

  /** A turn takes one open brace away. */
  lemma TurnCounts(before: Text, name: Text, tail: Text, v: Text)
    requires OPEN !in v
    ensures CountOf(before + v + tail, OPEN) < CountOf(before + Braced(name) + tail, OPEN)
  {
    CountJoin(before + Braced(name), tail, OPEN);
    CountJoin(before, Braced(name), OPEN);
    CountJoin(before + v, tail, OPEN);
    CountJoin(before, v, OPEN);
    CountNone(v, OPEN);
    CountNone(Braced(name), OPEN);
    assert Braced(name)[0] == OPEN;
  }

  /** What one turn makes of the text: the part before the placeholder and its value are
      done, the part after it is still to do. */
  lemma Turn(done: Text, before: Text, name: Text, tail: Text, v: Text)
    requires OPEN !in done && OPEN !in before && OPEN !in v
    ensures var text := (done + before) + Braced(name) + tail;
            var done' := done + before + v;
            && ReplaceFirst(text, Braced(name), v) == done' + tail
            && OPEN !in done' && CountOf(done' + tail, OPEN) < CountOf(text, OPEN)
  {
    ReplacesAtBrace(done + before, name, tail, v);
    TurnCounts(done + before, name, tail, v);
  }

  lemma TurnExpands(c: Call, done: Text, todo: Text, before: Text, name: Text, tail: Text, v: Text)
    requires CutFirst(todo) == Placeholder(before, name, tail) && Lookup(c, name) == Ok(v)
    ensures After(done, Expand(c, todo)) == After(done + before + v, Expand(c, tail))
  {
    AfterAfter(done, before + v, Expand(c, tail));
    Regroup(done, before, v);
  }

  lemma Regroup(a: Text, b: Text, c: Text)
    ensures a + (b + c) == a + b + c
  {
  }

  /** How the loop stands: `done` is finished text, and expanding the template is
      expanding what is left behind it. */
  ghost predicate Standing(c: Call, urlTemplate: Text, result: Text, done: Text, todo: Text) {
    result == done + todo && OPEN !in done && Expand(c, urlTemplate) == After(done, Expand(c, todo))
  }

  lemma StandingStops(c: Call, urlTemplate: Text, result: Text, done: Text, todo: Text)
    requires Standing(c, urlTemplate, result, done, todo) && !CutFirst(result).Placeholder?
    ensures Expand(c, urlTemplate) == if CutFirst(result).NoBrace? then Ok(result) else Err(Unmatched)
  {
    CutInTail(done, todo);
  }

  lemma StandingFails(c: Call, urlTemplate: Text, result: Text, done: Text, todo: Text)
    requires Standing(c, urlTemplate, result, done, todo) && CutFirst(result).Placeholder?
    requires Lookup(c, CutFirst(result).name).Err?
    ensures Expand(c, urlTemplate) == Lookup(c, CutFirst(result).name)
  {
    CutInTail(done, todo);
  }

  lemma StandingTurns(c: Call, urlTemplate: Text, result: Text, done: Text, todo: Text, v: Text)
    returns (done': Text, todo': Text)
    requires Standing(c, urlTemplate, result, done, todo) && CutFirst(result).Placeholder?
    requires Lookup(c, CutFirst(result).name) == Ok(v)
    ensures var result' := ReplaceFirst(result, Braced(CutFirst(result).name), v);
            Standing(c, urlTemplate, result', done', todo') && CountOf(result', OPEN) < CountOf(result, OPEN)
  {
    CutInTail(done, todo);
    CutSpells(todo);
    var cut := CutFirst(todo);
    ValueHasNoBrace(c, cut.name);
    Regroup(done, cut.before + Braced(cut.name), cut.tail);
    Regroup(done, cut.before, Braced(cut.name));
    Turn(done, cut.before, cut.name, cut.tail, v);
    TurnExpands(c, done, todo, cut.before, cut.name, cut.tail, v);
    done', todo' := done + cut.before + v, cut.tail;
  }

  lemma FoundHere(t: Text, start: nat, end: nat, placeholder: Text, name: Text)
    requires IndexOf(t, OPEN) == start && IndexOf(t[start + 1..], CLOSE) == end
    requires placeholder == t[start..start + end + 2] && name == t[start + 1..start + end + 1]
    ensures CutFirst(t).Placeholder? && CutFirst(t).name == name && placeholder == Braced(name)
  {
    CutFrom(t, start, end);
    assert t[start + 1..][end] == t[start + end + 1];
    SpellAround(t, start, end);
  }

  /** What one turn of the loop comes to: an answer, or the text with its first placeholder
      replaced. */
  datatype Turned = Finished(answer: Result) | Replaced(text: Text)

  function TurnOf(c: Call, result: Text): Turned {
    match CutFirst(result)
    case NoBrace => Finished(Ok(result))
    case Unclosed(_) => Finished(Err(Unmatched))
    case Placeholder(_, name, _) =>
      var value := Lookup(c, name);
      if value.Err? then Finished(value) else Replaced(ReplaceFirst(result, Braced(name), value.text))
  }

  /** The body of the loop. */
  method FillFirst(c: Call, result: Text) returns (t: Turned)
    ensures t == TurnOf(c, result)
  {
    var start := IndexOf(result, OPEN);
    if start == -1 { return Finished(Ok(result)); }
    var end := IndexOf(result[start + 1..], CLOSE);
    if end == -1 { return Finished(Err(Unmatched)); }
    var placeholder, name := result[start..start + end + 2], result[start + 1..start + end + 1];
    FoundHere(result, start, end, placeholder, name);
    var value := ValueOf(c, name);
    if value.Err? { return Finished(value); }
    return Replaced(ReplaceFirst(result, placeholder, value.text));
  }

  /** An answer is that of the expansion, and a replacement leaves fewer open braces. */
  lemma TurnKeeps(c: Call, urlTemplate: Text, result: Text, done: Text, todo: Text) returns (done': Text, todo': Text)
    requires Standing(c, urlTemplate, result, done, todo)
    ensures var t := TurnOf(c, result);
            && (t.Finished? ==> t.answer == Expand(c, urlTemplate))
            && (t.Replaced? ==>
                  Standing(c, urlTemplate, t.text, done', todo') && CountOf(t.text, OPEN) < CountOf(result, OPEN))
  {
    done', todo' := done, todo;
    if !CutFirst(result).Placeholder? {
      StandingStops(c, urlTemplate, result, done, todo);
    } else if Lookup(c, CutFirst(result).name).Err? {
      StandingFails(c, urlTemplate, result, done, todo);
    } else {
      done', todo' := StandingTurns(c, urlTemplate, result, done, todo, Lookup(c, CutFirst(result).name).text);
    }
  }

  lemma StandingStarts(c: Call, urlTemplate: Text)
    ensures Standing(c, urlTemplate, urlTemplate, [], urlTemplate)
  {
    assert [] + urlTemplate == urlTemplate;
  }

  method FillPathPlaceholders(c: Call, urlTemplate: Text) returns (r: Result)
    ensures r == Expand(c, urlTemplate)
  {
    var result := urlTemplate;
    ghost var done: Text, todo := [], urlTemplate;
    StandingStarts(c, urlTemplate);
    while true
      invariant Standing(c, urlTemplate, result, done, todo)
      decreases CountOf(result, OPEN)
    {
      var turn := FillFirst(c, result);
      done, todo := TurnKeeps(c, urlTemplate, result, done, todo);
      if turn.Finished? { return turn.answer; }
      result := turn.text;
    }
  }

  /** The argument as text, as it was before encoding. */
  function RawArg(c: Call, name: Text): Text {
    if name in c.args && ArgToString(c.args[name]).Some? then ArgToString(c.args[name]).value else []
  }

  predicate NoDelimiter(v: Text) {
    SLASH !in v && QUESTION !in v && HASH !in v && OPEN !in v && CLOSE !in v
  }

  lemma EscapedHasNoDelimiter(s: Text)
    ensures NoDelimiter(PathEscape(s))
  {
    PathEscapeIsPlain(s);
  }

  lemma LookupFills(c: Call, name: Text)
    ensures var r := Lookup(c, name);
            && (r.Ok? <==> name in c.defined && c.defined[name] == PATH && RawArg(c, name) != [])
            && (r.Ok? ==> r.text == PathEscape(RawArg(c, name)))
  {
  }

  lemma LookupFails(c: Call, name: Text)
    ensures var r, isPath := Lookup(c, name), name in c.defined && c.defined[name] == PATH;
            && (r == Err(NoDefinition(name)) <==> name !in c.defined)
            && (r == Err(NotInPath(name)) <==> name in c.defined && !isPath)
            && (r == Err(MissingArgument(name)) <==> isPath && name !in c.args)
            && (r == Err(Unconvertible(name)) <==> isPath && name in c.args && ArgToString(c.args[name]).None?)
            && (r == Err(EmptyArgument(name)) <==> isPath && name in c.args && ArgToString(c.args[name]) == Some([]))
  {
  }

  /** A placeholder is filled exactly when it is declared as a path argument and given as
      text that is not empty. The value decodes to that text and has no slash, question
      mark, number sign or brace. Each way to fail has its own error. */
  lemma LookupExactly(c: Call, name: Text)
    ensures var r, isPath := Lookup(c, name), name in c.defined && c.defined[name] == PATH;
            && (r.Ok? <==> isPath && RawArg(c, name) != [])
            && (r.Ok? ==> PathUnescape(r.text) == Some(RawArg(c, name)) && NoDelimiter(r.text))
            && (r == Err(NoDefinition(name)) <==> name !in c.defined)
            && (r == Err(NotInPath(name)) <==> name in c.defined && !isPath)
            && (r == Err(MissingArgument(name)) <==> isPath && name !in c.args)
            && (r == Err(Unconvertible(name)) <==> isPath && name in c.args && ArgToString(c.args[name]).None?)
            && (r == Err(EmptyArgument(name)) <==> isPath && name in c.args && ArgToString(c.args[name]) == Some([]))
  {
    LookupFills(c, name);
    LookupFails(c, name);
    PathEscapeBack(RawArg(c, name));
    EscapedHasNoDelimiter(RawArg(c, name));
  }

  /** The checks on one placeholder, in the order of the code. */
  method ValueOf(c: Call, name: Text) returns (r: Result)
    ensures r == Lookup(c, name)
  {
    if name !in c.defined { return Err(NoDefinition(name)); }
    if c.defined[name] != PATH { return Err(NotInPath(name)); }
    if name !in c.args { return Err(MissingArgument(name)); }
    var strVal := ArgToString(c.args[name]);
    if strVal.None? { return Err(Unconvertible(name)); }
    if strVal.value == [] { return Err(EmptyArgument(name)); }
    return Ok(PathEscape(strVal.value));
  }

  // ---- Placeholders as pieces ----

  datatype Piece = Literal(text: Text) | Hole(name: Text)

  /** The pieces of a template, up to an open brace that is never closed if there is one. */
  datatype Parsed = Parsed(pieces: seq<Piece>, complete: bool, rest: Text)

  function Parse(t: Text): Parsed
    decreases |t|
  {
    match CutFirst(t)
    case NoBrace => Parsed([Literal(t)], true, [])
    case Unclosed(before) => Parsed([Literal(before)], false, if |before| <= |t| then t[|before|..] else [])
    case Placeholder(before, name, tail) =>
      var more := Parse(tail);
      more.(pieces := [Literal(before), Hole(name)] + more.pieces)
  }

  function Spelled(p: Piece): Text {
    match p
    case Literal(text) => text
    case Hole(name) => Braced(name)
  }

  function Unparse(pieces: seq<Piece>): Text {
    if pieces == [] then [] else Spelled(pieces[0]) + Unparse(pieces[1..])
  }

  lemma UnparseOne(p: Piece)
    ensures Unparse([p]) == Spelled(p)
  {
    assert [p][1..] == [];
  }

  lemma UnparseTwo(a: Piece, h: Piece, more: seq<Piece>)
    ensures Unparse([a, h] + more) == Spelled(a) + Spelled(h) + Unparse(more)
  {
    assert ([a, h] + more)[1..] == [h] + more;
    assert ([h] + more)[1..] == more;
    Regroup(Spelled(a), Spelled(h), Unparse(more));
  }

  lemma UnclosedRest(t: Text, before: Text)
    requires Spells(Unclosed(before), t)
    ensures |before| <= |t| && before + t[|before|..] == t
  {
  }

  /** The pieces spell the template. */
  lemma {:induction false} ParseSpells(t: Text)
    ensures Unparse(Parse(t).pieces) + Parse(t).rest == t
    decreases |t|
  {
    CutSpells(t);
    match CutFirst(t)
    case NoBrace => UnparseOne(Literal(t));
    case Unclosed(before) =>
      UnparseOne(Literal(before));
      UnclosedRest(t, before);
    case Placeholder(before, name, tail) =>
      ParseSpells(tail);
      PiecesSpell(before, name, tail, Parse(tail).pieces, Parse(tail).rest);
  }

  lemma PiecesSpell(before: Text, name: Text, tail: Text, pieces: seq<Piece>, rest: Text)
    requires Unparse(pieces) + rest == tail
    ensures Unparse([Literal(before), Hole(name)] + pieces) + rest == before + Braced(name) + tail
  {
    UnparseTwo(Literal(before), Hole(name), pieces);
    Regroup(before + Braced(name), Unparse(pieces), rest);
  }

  /** The error of the first placeholder that cannot be filled. */
  function FirstBad(c: Call, pieces: seq<Piece>): Option<FillError> {
    if pieces == [] then None
    else if pieces[0].Hole? && Lookup(c, pieces[0].name).Err? then Some(Lookup(c, pieces[0].name).error)
    else FirstBad(c, pieces[1..])
  }

  function Fill(c: Call, p: Piece): Text {
    match p
    case Literal(text) => text
    case Hole(name) => if Lookup(c, name).Ok? then Lookup(c, name).text else []
  }

  function Filled(c: Call, pieces: seq<Piece>): Text {
    if pieces == [] then [] else Fill(c, pieces[0]) + Filled(c, pieces[1..])
  }

  lemma PiecesTwo(c: Call, text: Text, name: Text, more: seq<Piece>)
    ensures var ps := [Literal(text), Hole(name)] + more;
            && FirstBad(c, ps) == (if Lookup(c, name).Err? then Some(Lookup(c, name).error) else FirstBad(c, more))
            && (FirstBad(c, ps).None? ==> Filled(c, ps) == text + Lookup(c, name).text + Filled(c, more))
  {
    var ps, qs := [Literal(text), Hole(name)] + more, [Hole(name)] + more;
    assert ps[1..] == qs && qs[1..] == more;
    assert FirstBad(c, ps) == FirstBad(c, qs);
    if FirstBad(c, ps).None? {
      assert Filled(c, qs) == Lookup(c, name).text + Filled(c, more);
      Regroup(text, Lookup(c, name).text, Filled(c, more));
    }
  }

  /** The expansion fills the pieces in order: it fails with the error of the first
      placeholder that cannot be filled, else for an unmatched brace, else not at all. */
  lemma {:induction false} ExpandExactly(c: Call, t: Text)
    ensures var p := Parse(t);
            Expand(c, t) == if FirstBad(c, p.pieces).Some? then Err(FirstBad(c, p.pieces).value)
                            else if !p.complete then Err(Unmatched)
                            else Ok(Filled(c, p.pieces))
    decreases |t|
  {
    match CutFirst(t)
    case NoBrace => OneLiteral(c, t);
    case Unclosed(before) => OneLiteral(c, before);
    case Placeholder(before, name, tail) =>
      ExpandExactly(c, tail);
      PiecesTwo(c, before, name, Parse(tail).pieces);
  }

  lemma OneLiteral(c: Call, text: Text)
    ensures FirstBad(c, [Literal(text)]).None? && Filled(c, [Literal(text)]) == text
  {
    assert [Literal(text)][1..] == [];
  }
}
