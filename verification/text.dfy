/** The string operations the monitor relies on: splitting a path on '/',
    the last path segment, `rstrip` of one character, and substitution of
    the `{folder}` placeholder in a message template. */
module Text {

  /** `'/'.join(ps)`. */
  function Join(ps: seq<string>): string
  {
    if |ps| == 0 then ""
    else if |ps| == 1 then ps[0]
    else ps[0] + "/" + Join(ps[1..])
  }

  /** `s.split('/')`: the pieces between separators, always at least one. */
  function Split(s: string): (ps: seq<string>)
    ensures |ps| >= 1
    ensures forall i :: 0 <= i < |ps| ==> '/' !in ps[i]
    ensures Join(ps) == s
  {
    if |s| == 0 then [""]
    else if s[0] == '/' then
      var rest := Split(s[1..]);
      assert s == "/" + s[1..];
      [""] + rest
    else
      var rest := Split(s[1..]);
      var ps := [[s[0]] + rest[0]] + rest[1..];
      assert ps[1..] == rest[1..];
      assert s == [s[0]] + s[1..];
      ps
  }

  /** A text that lacks `c` and is not empty neither starts with `c` nor
      has `c` in the rest. */
  lemma NotInTail(p: string, c: char)
    requires c !in p && |p| > 0
    ensures p[0] != c && c !in p[1..]
  {
    assert p == [p[0]] + p[1..];
  }

  /** A leading character other than '/' joins the first piece. */
  lemma SplitCons(c: char, u: string)
    requires c != '/'
    ensures Split([c] + u) == [[c] + Split(u)[0]] + Split(u)[1..]
  {
    assert ([c] + u)[0] == c;
    assert ([c] + u)[1..] == u;
  }

  /** The inductive step of `SplitPiece`, given its claim for the tail. */
  lemma SplitPieceStep(x: string, t: string)
    requires |x| > 0 && x[0] != '/'
    requires Split(x[1..] + "/" + t) == [x[1..]] + Split(t)
    ensures Split(x + "/" + t) == [x] + Split(t)
  {
    var y := x[1..] + "/" + t;
    assert x + "/" + t == [x[0]] + y by {
      assert x == [x[0]] + x[1..];
    }
    SplitCons(x[0], y);
    var r := Split(y);
    assert r[0] == x[1..] && r[1..] == Split(t);
    assert [x[0]] + x[1..] == x;
  }

  /** A '/'-free piece followed by a separator splits off as one piece. */
  lemma {:induction false} SplitPiece(x: string, t: string)
    requires '/' !in x
    ensures Split(x + "/" + t) == [x] + Split(t)
    decreases |x|
  {
    if |x| == 0 {
      assert x + "/" + t == "/" + t;
      assert ("/" + t)[1..] == t;
    } else {
      NotInTail(x, '/');
      SplitPiece(x[1..], t);
      SplitPieceStep(x, t);
    }
  }

  /** A string without separator is a single piece. */
  lemma {:induction false} SplitSingle(x: string)
    requires '/' !in x
    ensures Split(x) == [x]
    decreases |x|
  {
    if |x| > 0 {
      SplitSingle(x[1..]);
      assert [x[0]] + x[1..] == x;
    }
  }

  /** Splitting undoes joining '/'-free pieces: with `Split`'s own contract,
      `Split` and `Join` are inverse bijections. */
  lemma {:induction false} SplitJoin(ps: seq<string>)
    requires |ps| >= 1
    requires forall i :: 0 <= i < |ps| ==> '/' !in ps[i]
    ensures Split(Join(ps)) == ps
    decreases |ps|
  {
    if |ps| == 1 {
      SplitSingle(ps[0]);
    } else {
      SplitJoin(ps[1..]);
      SplitPiece(ps[0], Join(ps[1..]));
      assert [ps[0]] + ps[1..] == ps;
    }
  }

  /** Joining peels off the last piece. */
  lemma {:induction false} JoinLast(ps: seq<string>)
    requires |ps| >= 2
    ensures Join(ps) == Join(ps[..|ps| - 1]) + "/" + ps[|ps| - 1]
    decreases |ps|
  {
    if |ps| > 2 {
      JoinLast(ps[1..]);
      assert ps[1..][..|ps| - 2] == ps[..|ps| - 1][1..];
    }
  }

  /** `p.split('/')[-1]`: the final '/'-separated segment of a path. It is
      the longest '/'-free suffix of `p`. */
  function LastSegment(p: string): (r: string)
    ensures '/' !in r
    ensures |r| <= |p| && r == p[|p| - |r|..]
    ensures |r| < |p| ==> p[|p| - |r| - 1] == '/'
  {
    var ps := Split(p);
    var r := ps[|ps| - 1];
    if |ps| >= 2 then
      JoinLast(ps);
      var head := Join(ps[..|ps| - 1]);
      assert p == head + "/" + r;
      assert p[|p| - |r|..] == r;
      r
    else
      r
  }

  /** `r` is what `s.rstrip(c)` returns: a prefix of `s` not ending in `c`,
      and everything cut off is `c`. */
  ghost predicate RStripped(r: string, s: string, c: char)
  {
    && r <= s
    && (|r| == 0 || r[|r| - 1] != c)
    && forall i :: |r| <= i < |s| ==> s[i] == c
  }

  /** `s.rstrip(c)`. */
  function RStrip(s: string, c: char): (r: string)
    ensures RStripped(r, s, c)
  {
    if |s| == 0 || s[|s| - 1] != c then s
    else RStrip(s[..|s| - 1], c)
  }

  /** `RStripped` pins the result down: there is only one stripped form. */
  lemma RStrippedUnique(a: string, b: string, s: string, c: char)
    requires RStripped(a, s, c) && RStripped(b, s, c)
    ensures a == b
  {
  }

  /** Stripping twice is stripping once. */
  lemma RStripIdempotent(s: string, c: char)
    ensures RStrip(RStrip(s, c), c) == RStrip(s, c)
  {
  }

  const Placeholder := "{folder}"

  /** `t` with every occurrence of `{folder}`, scanned left to right without
      overlap, replaced by `v`. This is what `t.format(folder=v)` computes on
      templates whose only braces are `{folder}` placeholders; a lone '}',
      on which `format` raises, is kept here as an ordinary character. */
  function Substitute(t: string, v: string): (r: string)
    ensures '{' !in t ==> r == t
    decreases |t|
  {
    if |t| < |Placeholder| then t
    else if t[..|Placeholder|] == Placeholder then
      assert t[0] == Placeholder[0] == '{';
      v + Substitute(t[|Placeholder|..], v)
    else
      assert [t[0]] + t[1..] == t;
      [t[0]] + Substitute(t[1..], v)
  }

  /** A leading placeholder becomes `v`. */
  lemma SubstituteHeadPlaceholder(s: string, v: string)
    ensures Substitute(Placeholder + s, v) == v + Substitute(s, v)
  {
    var t := Placeholder + s;
    assert t[..|Placeholder|] == Placeholder;
    assert t[|Placeholder|..] == s;
  }

  /** A leading character other than '{' is copied. */
  lemma SubstituteHeadChar(p: string, s: string, v: string)
    requires |p| > 0 && p[0] != '{'
    ensures Substitute(p + Placeholder + s, v) == [p[0]] + Substitute(p[1..] + Placeholder + s, v)
  {
    var t := p + Placeholder + s;
    assert t[..|Placeholder|] != Placeholder by {
      assert t[..|Placeholder|][0] == p[0];
    }
    assert t[1..] == p[1..] + Placeholder + s;
  }

  /** Putting the first element back in front of the rest. */
  lemma ConsRest(p: string, v: string, x: string)
    requires |p| > 0
    ensures [p[0]] + (p[1..] + v + x) == p + v + x
  {
    assert [p[0]] + p[1..] == p;
    assert [p[0]] + (p[1..] + v + x) == ([p[0]] + p[1..]) + v + x;
  }

  /** One step of `SubstituteFirst`: a leading character other than '{'
      stays in front of the result for the rest. */
  lemma SubstituteFirstStep(p: string, s: string, v: string)
    requires |p| > 0 && p[0] != '{'
    requires Substitute(p[1..] + Placeholder + s, v) == p[1..] + v + Substitute(s, v)
    ensures Substitute(p + Placeholder + s, v) == p + v + Substitute(s, v)
  {
    SubstituteHeadChar(p, s, v);
    ConsRest(p, v, Substitute(s, v));
  }

  /** Text before the first placeholder is kept, the placeholder becomes `v`,
      and substitution goes on in the rest. */
  lemma {:induction false} SubstituteFirst(p: string, s: string, v: string)
    requires '{' !in p
    ensures Substitute(p + Placeholder + s, v) == p + v + Substitute(s, v)
    decreases |p|
  {
    if |p| == 0 {
      SubstituteHeadPlaceholder(s, v);
      assert p + Placeholder + s == Placeholder + s;
    } else {
      var q := p[1..];
      NotInTail(p, '{');
      SubstituteFirst(q, s, v);
      SubstituteFirstStep(p, s, v);
    }
  }

  /** Substituting the placeholder by itself gives the template back. */
  lemma {:induction false} SubstituteIdentity(t: string)
    ensures Substitute(t, Placeholder) == t
    decreases |t|
  {
    if |t| < |Placeholder| {
    } else if t[..|Placeholder|] == Placeholder {
      SubstituteIdentity(t[|Placeholder|..]);
      assert t == t[..|Placeholder|] + t[|Placeholder|..];
    } else {
      SubstituteIdentity(t[1..]);
      assert [t[0]] + t[1..] == t;
    }
  }
}
