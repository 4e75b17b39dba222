/** What arguments can and cannot do to the structure of a filled URL: split at a delimiter
    that percent-encoding removes, it is the split template with each part filled, so no
    argument adds, removes or moves a delimiter; but an argument can be a dot segment. */
module CallTemplateSegments {
  import opened Bytes
  import opened CallTemplate

  // ---- Splitting ----

  function Split(t: Text, b: Byte): (r: seq<Text>)
    ensures r != []
  {
    if t == [] then [[]]
    else
      var rest := Split(t[1..], b);
      if t[0] == b then [[]] + rest else [[t[0]] + rest[0]] + rest[1..]
  }

  /** Lists of parts joined: the last part of one continues in the first of the other. */
  function Glue<T>(x: seq<seq<T>>, y: seq<seq<T>>): (r: seq<seq<T>>)
    requires x != [] && y != []
    ensures r != []
  {
    x[..|x| - 1] + [x[|x| - 1] + y[0]] + y[1..]
  }

  lemma GlueAt<T>(x: seq<seq<T>>, y: seq<seq<T>>)
    requires x != [] && y != []
    ensures var g, n := Glue(x, y), |x| - 1;
            && |g| == n + |y| && g[n] == x[n] + y[0]
            && (forall i :: 0 <= i < n ==> g[i] == x[i]) && (forall i :: n < i < |g| ==> g[i] == y[i - n])
  {
  }

  lemma {:induction false} SplitNone(t: Text, b: Byte)
    requires b !in t
    ensures Split(t, b) == [t]
  {
    if t != [] {
      SplitNone(t[1..], b);
      assert [t[0]] + t[1..] == t;
    }
  }

  lemma {:induction false} SplitJoin(x: Text, y: Text, b: Byte)
    ensures Split(x + y, b) == Glue(Split(x, b), Split(y, b))
  {
    var sy := Split(y, b);
    if x == [] {
      assert x + y == y && [] + sy[0] == sy[0];
      assert Glue([[]], sy) == sy;
    } else {
      SplitJoin(x[1..], y, b);
      assert (x + y)[0] == x[0] && (x + y)[1..] == x[1..] + y;
      GlueFirst(x[0], b, Split(x[1..], b), sy);
    }
  }

  /** Putting a byte in front commutes with joining. */
  lemma GlueFirst(first: Byte, b: Byte, rest: seq<Text>, y: seq<Text>)
    requires rest != [] && y != []
    ensures var g := Glue(rest, y);
            if first == b then Glue([[]] + rest, y) == [[]] + g
            else Glue([[first] + rest[0]] + rest[1..], y) == [[first] + g[0]] + g[1..]
  {
    var g := Glue(rest, y);
    GlueAt(rest, y);
    if first == b {
      GlueAt([[]] + rest, y);
    } else {
      var x := [[first] + rest[0]] + rest[1..];
      GlueAt(x, y);
      assert |rest| == 1 ==> [first] + rest[0] + y[0] == [first] + (rest[0] + y[0]);
      assert forall i :: 0 <= i < |g| ==> Glue(x, y)[i] == ([[first] + g[0]] + g[1..])[i];
    }
  }

  // ---- The split template ----

  function Parts(p: Piece, b: Byte): (r: seq<seq<Piece>>)
    ensures r != []
  {
    match p
    case Hole(_) => [[p]]
    case Literal(text) => seq(|Split(text, b)|, i requires 0 <= i < |Split(text, b)| => [Literal(Split(text, b)[i])])
  }

  function SplitPieces(pieces: seq<Piece>, b: Byte): (r: seq<seq<Piece>>)
    ensures r != []
  {
    if pieces == [] then [[]] else Glue(Parts(pieces[0], b), SplitPieces(pieces[1..], b))
  }

  function FillEach(c: Call, parts: seq<seq<Piece>>): seq<Text> {
    seq(|parts|, i requires 0 <= i < |parts| => Filled(c, parts[i]))
  }

  lemma {:induction false} FilledJoin(c: Call, x: seq<Piece>, y: seq<Piece>)
    ensures Filled(c, x + y) == Filled(c, x) + Filled(c, y)
  {
    if x == [] {
      assert x + y == y;
    } else {
      FilledJoin(c, x[1..], y);
      FilledFirst(c, x[0], x[1..] + y);
      assert x + y == [x[0]] + (x[1..] + y);
      Regroup(Fill(c, x[0]), Filled(c, x[1..]), Filled(c, y));
    }
  }

  lemma FilledFirst(c: Call, p: Piece, rest: seq<Piece>)
    ensures Filled(c, [p] + rest) == Fill(c, p) + Filled(c, rest)
  {
    assert ([p] + rest)[1..] == rest;
  }

  lemma FilledOne(c: Call, p: Piece)
    ensures Filled(c, [p]) == Fill(c, p)
  {
    assert [p][1..] == [];
  }

  lemma FillEachJoin(c: Call, x: seq<seq<Piece>>, y: seq<seq<Piece>>)
    requires x != [] && y != []
    ensures FillEach(c, Glue(x, y)) == Glue(FillEach(c, x), FillEach(c, y))
  {
    GlueAt(x, y);
    GlueAt(FillEach(c, x), FillEach(c, y));
    FilledJoin(c, x[|x| - 1], y[0]);
  }

  /** A delimiter that percent-encoding never lets through: a slash, a question mark, a number
      sign or a brace, for instance. */
  predicate Delimiter(b: Byte) {
    !Plain(b) && b != PERCENT
  }

  lemma FilledHole(c: Call, name: Text, b: Byte)
    requires Delimiter(b)
    ensures b !in Fill(c, Hole(name))
  {
    if Lookup(c, name).Ok? { PathEscapeIsPlain(ArgToString(c.args[name]).value); }
  }

  lemma PieceSplits(c: Call, p: Piece, b: Byte)
    requires Delimiter(b)
    ensures Split(Fill(c, p), b) == FillEach(c, Parts(p, b))
  {
    if p.Hole? {
      FilledHole(c, p.name, b);
      SplitNone(Fill(c, p), b);
      FilledOne(c, p);
    } else {
      forall i | 0 <= i < |Parts(p, b)| ensures Filled(c, Parts(p, b)[i]) == Split(p.text, b)[i] {
        FilledOne(c, Literal(Split(p.text, b)[i]));
      }
    }
  }

  lemma {:induction false} FilledSplits(c: Call, pieces: seq<Piece>, b: Byte)
    requires Delimiter(b)
    ensures Split(Filled(c, pieces), b) == FillEach(c, SplitPieces(pieces, b))
  {
    if pieces != [] {
      FilledSplits(c, pieces[1..], b);
      PieceSplits(c, pieces[0], b);
      SplitJoin(Fill(c, pieces[0]), Filled(c, pieces[1..]), b);
      FillEachJoin(c, Parts(pieces[0], b), SplitPieces(pieces[1..], b));
    }
  }

  /** Segment by segment, or split at any other delimiter: the filled URL is the template
      split there, with the placeholders of each part replaced. */
  lemma StructureKept(c: Call, t: Text, b: Byte)
    requires Expand(c, t).Ok? && Delimiter(b)
    ensures Split(Expand(c, t).text, b) == FillEach(c, SplitPieces(Parse(t).pieces, b))
  {
    ExpandExactly(c, t);
    FilledSplits(c, Parse(t).pieces, b);
  }

  /** No placeholder is left. */
  lemma {:induction false} NothingLeft(c: Call, t: Text)
    requires Expand(c, t).Ok?
    ensures OPEN !in Expand(c, t).text
    decreases |t|
  {
    CutSpells(t);
    var cut := CutFirst(t);
    if cut.Placeholder? {
      NothingLeft(c, cut.tail);
      ValueHasNoBrace(c, cut.name);
    }
  }

  // ---- Dot segments ----

  const DOT: Byte := 46

  predicate DotSegment(t: Text) {
    t == [DOT] || t == [DOT, DOT]
  }

  predicate AllPlain(t: Text) {
    forall i :: 0 <= i < |t| ==> Plain(t[i])
  }

  /** The pieces filled without encoding. */
  function Raw(c: Call, p: Piece): Text {
    match p
    case Literal(text) => text
    case Hole(name) => if Lookup(c, name).Ok? then RawArg(c, name) else []
  }

  function RawText(c: Call, pieces: seq<Piece>): Text {
    if pieces == [] then [] else Raw(c, pieces[0]) + RawText(c, pieces[1..])
  }

  /** Encoding leaves plain text alone, and nothing else becomes plain text. */
  lemma {:induction false} PlainUnchanged(s: Text)
    ensures AllPlain(s) || AllPlain(PathEscape(s)) ==> PathEscape(s) == s
  {
    if s != [] {
      PlainUnchanged(s[1..]);
      assert s == [s[0]] + s[1..];
      PlainJoin([s[0]], s[1..]);
      PlainJoin(EscapeByte(s[0]), PathEscape(s[1..]));
      PlainByte(s[0]);
    }
  }

  lemma PlainByte(b: Byte)
    ensures AllPlain([b]) <==> Plain(b)
    ensures AllPlain(EscapeByte(b)) <==> Plain(b)
  {
    assert [b][0] == b;
    assert !Plain(b) ==> EscapeByte(b)[0] == PERCENT;
  }

  lemma PlainJoin(x: Text, y: Text)
    ensures AllPlain(x + y) <==> AllPlain(x) && AllPlain(y)
  {
    if AllPlain(x + y) {
      assert forall i :: 0 <= i < |x| ==> (x + y)[i] == x[i];
      assert forall i :: 0 <= i < |y| ==> (x + y)[|x| + i] == y[i];
    }
  }

  lemma {:induction false} PlainFilled(c: Call, pieces: seq<Piece>)
    ensures AllPlain(RawText(c, pieces)) || AllPlain(Filled(c, pieces)) ==> Filled(c, pieces) == RawText(c, pieces)
  {
    if pieces != [] {
      PlainFilled(c, pieces[1..]);
      PlainJoin(Raw(c, pieces[0]), RawText(c, pieces[1..]));
      PlainJoin(Fill(c, pieces[0]), Filled(c, pieces[1..]));
      if pieces[0].Hole? { PlainUnchanged(RawArg(c, pieces[0].name)); }
    }
  }

  /** Encoding does not touch dots: a segment of the filled URL is a dot segment exactly when
      the segment of the template with the bare arguments is, for instance when it is a lone
      placeholder whose argument is two dots. */
  lemma DotSegmentsExactly(c: Call, t: Text, i: nat)
    requires Expand(c, t).Ok? && i < |SplitPieces(Parse(t).pieces, SLASH)|
    ensures |Split(Expand(c, t).text, SLASH)| == |SplitPieces(Parse(t).pieces, SLASH)|
    ensures DotSegment(Split(Expand(c, t).text, SLASH)[i])
            <==> DotSegment(RawText(c, SplitPieces(Parse(t).pieces, SLASH)[i]))
  {
    StructureKept(c, t, SLASH);
    DotParts(c, Split(Expand(c, t).text, SLASH), SplitPieces(Parse(t).pieces, SLASH), i);
  }

  lemma DotParts(c: Call, segments: seq<Text>, parts: seq<seq<Piece>>, i: nat)
    requires segments == FillEach(c, parts) && i < |parts|
    ensures |segments| == |parts| && (DotSegment(segments[i]) <==> DotSegment(RawText(c, parts[i])))
  {
    PlainFilled(c, parts[i]);
    DotsArePlain(RawText(c, parts[i]));
    DotsArePlain(segments[i]);
  }

  lemma DotsArePlain(t: Text)
    ensures DotSegment(t) ==> AllPlain(t)
  {
  }

  /** A lone placeholder filled with two dots: a slash, a one-letter placeholder and its
      argument give a URL whose second segment is a parent segment. */
  lemma ParentSegment(c: Call, n: Byte, t: Text)
    requires n != OPEN && n != CLOSE && t == [SLASH] + Braced([n])
    requires c == Call(map[[n] := PATH], map[[n] := Str([DOT, DOT])])
    ensures Expand(c, t) == Ok([SLASH, DOT, DOT]) && Split(Expand(c, t).text, SLASH) == [[], [DOT, DOT]]
  {
    CutUnique([SLASH], [n], []);
    assert t == [SLASH] + Braced([n]) + [];
    assert Lookup(c, [n]) == Ok([DOT, DOT]) by { PlainUnchanged([DOT, DOT]); }
    assert Expand(c, []) == Ok([]);
    assert [SLASH] + [DOT, DOT] + [] == [SLASH, DOT, DOT];
    SplitNone([DOT, DOT], SLASH);
    assert [SLASH, DOT, DOT][1..] == [DOT, DOT];
  }
}
