/** Splitting text at a separator and joining it again, as JavaScript's `split` and `join` do. */
module Text {

  function Split(s: string, sep: char): (parts: seq<string>)
    ensures |parts| >= 1
  {
    if s == [] then [""]
    else
      var rest := Split(s[1..], sep);
      if s[0] == sep then [""] + rest else [[s[0]] + rest[0]] + rest[1..]
  }

  function Join(parts: seq<string>, sep: char): string {
    if parts == [] then ""
    else if |parts| == 1 then parts[0]
    else parts[0] + [sep] + Join(parts[1..], sep)
  }

  lemma LongerFirst(c: char, parts: seq<string>, sep: char)
    requires parts != []
    ensures Join([[c] + parts[0]] + parts[1..], sep) == [c] + Join(parts, sep)
  {
    var longer := [[c] + parts[0]] + parts[1..];
    assert longer[1..] == parts[1..] && longer[0] == [c] + parts[0];
    if |parts| > 1 {
      var tail := [sep] + Join(parts[1..], sep);
      assert Join(longer, sep) == [c] + parts[0] + tail;
      assert Join(parts, sep) == parts[0] + tail;
    }
  }

  /** The parts hold no separator and join to the text. */
  lemma {:induction false} JoinSplit(s: string, sep: char)
    ensures Join(Split(s, sep), sep) == s
    ensures forall p | p in Split(s, sep) :: sep !in p
  {
    if s != [] {
      JoinSplit(s[1..], sep);
      var rest, parts := Split(s[1..], sep), Split(s, sep);
      assert s == [s[0]] + s[1..];
      if s[0] == sep {
        assert parts[1..] == rest;
      } else {
        assert parts[1..] == rest[1..];
        assert forall p | p in parts :: p == [s[0]] + rest[0] || p in rest;
        LongerFirst(s[0], rest, sep);
      }
    }
  }

  lemma {:induction false} SplitPiece(p: string, rest: string, sep: char)
    requires sep !in p
    ensures Split(p + [sep] + rest, sep) == [p] + Split(rest, sep)
  {
    var s := p + [sep] + rest;
    if p != [] {
      SplitPiece(p[1..], rest, sep);
      assert s[1..] == p[1..] + [sep] + rest;
      assert [p[0]] + p[1..] == p;
    } else {
      assert s[1..] == rest;
    }
  }

  lemma {:induction false} SplitLast(p: string, sep: char)
    requires sep !in p
    ensures Split(p, sep) == [p]
  {
    if p != [] {
      SplitLast(p[1..], sep);
      assert [p[0]] + p[1..] == p;
    }
  }

  function Quad(a: string, b: string, c: string, d: string): string {
    a + "." + (b + "." + (c + "." + d))
  }

  lemma QuadParts(a: string, b: string, c: string, d: string)
    requires '.' !in a && '.' !in b && '.' !in c && '.' !in d
    ensures Split(Quad(a, b, c, d), '.') == [a, b, c, d]
  {
    hide Split;
    SplitPiece(a, b + "." + (c + "." + d), '.');
    SplitPiece(b, c + "." + d, '.');
    SplitPiece(c, d, '.');
    SplitLast(d, '.');
  }

  lemma JoinInjective(a: seq<string>, b: seq<string>, sep: char)
    requires a != [] && b != []
    requires forall p | p in a :: sep !in p
    requires forall p | p in b :: sep !in p
    requires Join(a, sep) == Join(b, sep)
    ensures a == b
  {
    SplitJoin(a, sep);
    SplitJoin(b, sep);
  }

  lemma {:induction false} SplitJoin(a: seq<string>, sep: char)
    requires a != [] && forall p | p in a :: sep !in p
    ensures Split(Join(a, sep), sep) == a
  {
    assert a[0] in a;
    if |a| == 1 {
      SplitLast(a[0], sep);
      assert a == [a[0]];
    } else {
      assert forall p | p in a[1..] :: p in a;
      SplitJoin(a[1..], sep);
      SplitPiece(a[0], Join(a[1..], sep), sep);
      assert a == [a[0]] + a[1..];
    }
  }
}
