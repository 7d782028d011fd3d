/** The pieces of Python's `str` that the modelled code uses: case mapping,
    `split`, `join`, `endswith` and whitespace `split()`. */
module Text {

  /** `c.upper()` for ASCII; every other character is left as it is. */
  function Upper(c: char): (r: char)
    ensures 'a' <= c <= 'z' ==> 'A' <= r <= 'Z'
    ensures !('a' <= c <= 'z') ==> r == c
  {
    if 'a' <= c <= 'z' then (c as int - 32) as char else c
  }

  /** `c.lower()` for ASCII; every other character is left as it is. */
  function Lower(c: char): (r: char)
    ensures 'A' <= c <= 'Z' ==> 'a' <= r <= 'z'
    ensures !('A' <= c <= 'Z') ==> r == c
  {
    if 'A' <= c <= 'Z' then (c as int + 32) as char else c
  }

  /** `s.lower()` for ASCII. */
  function LowerStr(s: string): (r: string)
    ensures |r| == |s|
    ensures forall i :: 0 <= i < |s| ==> r[i] == Lower(s[i])
  {
    seq(|s|, i requires 0 <= i < |s| => Lower(s[i]))
  }

  predicate IsAsciiUpper(c: char) { 'A' <= c <= 'Z' }

  predicate IsAsciiLower(c: char) { 'a' <= c <= 'z' }

  lemma LowerStrCons(c: char, t: string)
    ensures LowerStr([c] + t) == [Lower(c)] + LowerStr(t)
  {
    var a, b := LowerStr([c] + t), [Lower(c)] + LowerStr(t);
    assert |a| == |b|;
    forall i | 0 <= i < |a| ensures a[i] == b[i] {
      if i > 0 {
        assert ([c] + t)[i] == t[i - 1];
      }
    }
  }

  lemma UpperLowerFacts(c: char)
    ensures Upper(Upper(c)) == Upper(c) && Lower(Lower(c)) == Lower(c)
    ensures Upper(Lower(c)) == Upper(c) && Lower(Upper(c)) == Lower(c)
    ensures !IsAsciiLower(Upper(c)) && !IsAsciiUpper(Lower(c))
  {
  }

  /** The pieces of `s` between the characters that occur in `ds`; there is always
      one more piece than there are such characters, and pieces may be empty. */
  function SplitOn(s: string, ds: string): (r: seq<string>)
    ensures |r| >= 1
  {
    if s == [] then [[]]
    else
      var rest := SplitOn(s[1..], ds);
      if s[0] in ds then [[]] + rest else [[s[0]] + rest[0]] + rest[1..]
  }

  /** `s.split(d)`. */
  function Split(s: string, d: char): (r: seq<string>)
    ensures |r| >= 1
  {
    SplitOn(s, [d])
  }

  /** `sep.join(ts)`. */
  function Join(ts: seq<string>, sep: string): string {
    if ts == [] then []
    else if |ts| == 1 then ts[0]
    else ts[0] + sep + Join(ts[1..], sep)
  }

  /** `"".join(ts)`. */
  function Concat(ts: seq<string>): string {
    if ts == [] then [] else ts[0] + Concat(ts[1..])
  }

  lemma {:induction false} ConcatAppend(a: seq<string>, b: seq<string>)
    ensures Concat(a + b) == Concat(a) + Concat(b)
  {
    if a != [] {
      assert (a + b)[0] == a[0];
      assert (a + b)[1..] == a[1..] + b;
      ConcatAppend(a[1..], b);
      assert Concat(a + b) == a[0] + (Concat(a[1..]) + Concat(b));
    } else {
      assert a + b == b;
    }
  }

  /** Splitting and joining again with the same character gives back the string. */
  lemma {:induction false} SplitJoin(s: string, d: char)
    ensures Join(Split(s, d), [d]) == s
  {
    if s != [] {
      SplitJoin(s[1..], d);
      var rest := Split(s[1..], d);
      if s[0] == d {
        assert Join([[]] + rest, [d]) == [] + [d] + Join(rest, [d]);
      } else if |rest| == 1 {
      } else {
        var r := [[s[0]] + rest[0]] + rest[1..];
        assert r[1..] == rest[1..];
        assert Join(rest, [d]) == rest[0] + [d] + Join(rest[1..], [d]);
      }
    }
  }

  /** No piece contains a separator. */
  lemma {:induction false} SplitOnPiecesFree(s: string, ds: string)
    ensures forall t, c :: t in SplitOn(s, ds) && c in t ==> c !in ds
  {
    if s != [] {
      SplitOnPiecesFree(s[1..], ds);
      var rest := SplitOn(s[1..], ds);
      if s[0] !in ds {
        assert rest[0] in rest;
        forall t, c | t in [[s[0]] + rest[0]] + rest[1..] && c in t ensures c !in ds {
          if t == [s[0]] + rest[0] { } else { assert t in rest; }
        }
      }
    }
  }

  /** Two consecutive characters of `s` both occur in `ds`. */
  predicate Doubled(s: string, ds: string) {
    exists i :: 0 <= i < |s| - 1 && s[i] in ds && s[i + 1] in ds
  }

  /** Splitting `s` at the characters of `ds` yields an empty piece: `s` is empty,
      starts or ends with a separator, or has two consecutive separators. */
  predicate HasEmptyToken(s: string, ds: string) {
    s == [] || s[0] in ds || s[|s| - 1] in ds || Doubled(s, ds)
  }

  /** A doubled separator is at the front or in the tail. */
  lemma DoubledCons(s: string, ds: string)
    requires s != []
    ensures Doubled(s, ds) <==> Doubled(s[1..], ds) || (|s| >= 2 && s[0] in ds && s[1] in ds)
  {
    var t := s[1..];
    if Doubled(t, ds) {
      var i :| 0 <= i < |t| - 1 && t[i] in ds && t[i + 1] in ds;
      assert s[i + 1] in ds && s[i + 2] in ds;
    }
    if Doubled(s, ds) {
      var i :| 0 <= i < |s| - 1 && s[i] in ds && s[i + 1] in ds;
      if i > 0 { assert t[i - 1] in ds && t[i] in ds; }
    }
  }

  lemma {:induction false} EmptyTokenIff(s: string, ds: string)
    ensures [] in SplitOn(s, ds) <==> HasEmptyToken(s, ds)
    ensures [] in SplitOn(s, ds)[1..] <==> (s != [] && s[|s| - 1] in ds) || Doubled(s, ds)
  {
    if s != [] {
      var t := s[1..];
      EmptyTokenIff(t, ds);
      DoubledCons(s, ds);
      var rest := SplitOn(t, ds);
      assert t != [] ==> t[|t| - 1] == s[|s| - 1] && t[0] == s[1];
      if s[0] in ds {
        assert SplitOn(s, ds) == [[]] + rest;
        assert SplitOn(s, ds)[1..] == rest;
      } else {
        var r := [[s[0]] + rest[0]] + rest[1..];
        assert SplitOn(s, ds) == r;
        assert r[0] != [];
        assert r[1..] == rest[1..];
        assert [] in r <==> [] in rest[1..];
      }
    }
  }

  /** Whether a split yields an empty piece depends only on where the separators are. */
  lemma EmptyTokenSameSeparators(s: string, t: string, ds: string)
    requires |s| == |t|
    requires forall i :: 0 <= i < |s| ==> (s[i] in ds <==> t[i] in ds)
    ensures HasEmptyToken(s, ds) <==> HasEmptyToken(t, ds)
  {
    if Doubled(s, ds) {
      var i :| 0 <= i < |s| - 1 && s[i] in ds && s[i + 1] in ds;
      assert t[i] in ds && t[i + 1] in ds;
    }
    if Doubled(t, ds) {
      var i :| 0 <= i < |t| - 1 && t[i] in ds && t[i + 1] in ds;
      assert s[i] in ds && s[i + 1] in ds;
    }
  }

  /** Every piece of `ts` split again at `d`, all pieces in order. */
  function SplitEach(ts: seq<string>, d: char): seq<string> {
    if ts == [] then [] else Split(ts[0], d) + SplitEach(ts[1..], d)
  }

  lemma {:induction false} SplitEachAppend(a: seq<string>, b: seq<string>, d: char)
    ensures SplitEach(a + b, d) == SplitEach(a, d) + SplitEach(b, d)
  {
    if a != [] {
      assert (a + b)[0] == a[0];
      assert (a + b)[1..] == a[1..] + b;
      SplitEachAppend(a[1..], b, d);
    } else {
      assert a + b == b;
    }
  }

  lemma SplitOnCons(c: char, t: string, ds: string)
    ensures SplitOn([c] + t, ds) ==
      if c in ds then [[]] + SplitOn(t, ds) else [[c] + SplitOn(t, ds)[0]] + SplitOn(t, ds)[1..]
  {
    assert ([c] + t)[1..] == t;
  }

  lemma SplitEachCons(t: string, ts: seq<string>, d: char)
    ensures SplitEach([t] + ts, d) == Split(t, d) + SplitEach(ts, d)
  {
    assert ([t] + ts)[1..] == ts;
  }

  /** Splitting at the characters of `ds` and then every piece again at `d` is splitting
      at the characters of `ds + [d]`. */
  lemma {:induction false} SplitEachOn(s: string, ds: string, d: char)
    ensures SplitEach(SplitOn(s, ds), d) == SplitOn(s, ds + [d])
  {
    if s == [] {
      assert SplitEach([[]], d) == Split([], d) + SplitEach([], d);
    } else {
      SplitEachOn(s[1..], ds, d);
      assert s == [s[0]] + s[1..];
      if s[0] in ds {
        SplitEachOnDropped(s[0], s[1..], ds, d);
      } else {
        SplitEachOnKept(s[0], s[1..], ds, d);
      }
    }
  }

  lemma SplitEachOnDropped(c: char, t: string, ds: string, d: char)
    requires c in ds
    requires SplitEach(SplitOn(t, ds), d) == SplitOn(t, ds + [d])
    ensures SplitEach(SplitOn([c] + t, ds), d) == SplitOn([c] + t, ds + [d])
  {
    assert c in ds + [d];
    SplitOnCons(c, t, ds);
    SplitOnCons(c, t, ds + [d]);
    SplitEachCons([], SplitOn(t, ds), d);
  }

  lemma SplitEachOnKept(c: char, t: string, ds: string, d: char)
    requires c !in ds
    requires SplitEach(SplitOn(t, ds), d) == SplitOn(t, ds + [d])
    ensures SplitEach(SplitOn([c] + t, ds), d) == SplitOn([c] + t, ds + [d])
  {
    var r := SplitOn(t, ds);
    var q, e := Split(r[0], d), SplitEach(r[1..], d);
    assert SplitOn(t, ds + [d]) == q + e by {
      assert r == [r[0]] + r[1..];
      SplitEachCons(r[0], r[1..], d);
    }
    assert SplitEach(SplitOn([c] + t, ds), d) == Split([c] + r[0], d) + e by {
      SplitOnCons(c, t, ds);
      SplitEachCons([c] + r[0], r[1..], d);
    }
    SplitOnCons(c, r[0], [d]);
    SplitOnCons(c, t, ds + [d]);
    if c == d {
      assert c in ds + [d];
      ConsEmpty(q, e);
    } else {
      assert c !in ds + [d];
      ConsHead(c, q, e);
    }
  }

  /** A string with none of the separators is its own single piece. */
  lemma {:induction false} SplitOnNoSeparator(s: string, ds: string)
    requires forall c :: c in s ==> c !in ds
    ensures SplitOn(s, ds) == [s]
  {
    if s != [] {
      assert forall c :: c in s[1..] ==> c in s;
      SplitOnNoSeparator(s[1..], ds);
      assert s == [s[0]] + s[1..];
    }
  }

  /** `s` with every character that occurs in `ds` removed. */
  function RemoveAll(s: string, ds: string): (r: string)
    ensures |r| <= |s|
    ensures forall c :: c in r ==> c in s && c !in ds
  {
    if s == [] then []
    else if s[0] in ds then RemoveAll(s[1..], ds)
    else [s[0]] + RemoveAll(s[1..], ds)
  }

  lemma {:induction false} RemoveAllAppend(a: string, b: string, ds: string)
    ensures RemoveAll(a + b, ds) == RemoveAll(a, ds) + RemoveAll(b, ds)
  {
    if a == [] {
      assert a + b == b;
    } else {
      assert (a + b)[0] == a[0] && (a + b)[1..] == a[1..] + b;
      RemoveAllAppend(a[1..], b, ds);
    }
  }

  /** Removing characters other than `d` keeps a leading `d` in front. */
  lemma RemoveKeepsFirst(s: string, d: char, ds: string)
    requires d !in ds && s != [] && s[0] == d
    ensures RemoveAll(s, ds) != [] && RemoveAll(s, ds)[0] == d
  {
    assert RemoveAll(s, ds) == [d] + RemoveAll(s[1..], ds);
  }

  /** Removing characters other than `d` keeps a trailing `d` at the end. */
  lemma RemoveKeepsLast(s: string, d: char, ds: string)
    requires d !in ds && s != [] && s[|s| - 1] == d
    ensures RemoveAll(s, ds) != [] && RemoveAll(s, ds)[|RemoveAll(s, ds)| - 1] == d
  {
    var n := |s| - 1;
    assert s == s[..n] + [d];
    RemoveAllAppend(s[..n], [d], ds);
    assert RemoveAll([d], ds) == [d] + RemoveAll([], ds);
  }

  /** Removing characters other than `d` keeps two adjacent `d`s adjacent. */
  lemma RemoveKeepsPair(s: string, d: char, ds: string, i: nat)
    requires d !in ds && i < |s| - 1 && s[i] == d && s[i + 1] == d
    ensures Doubled(RemoveAll(s, ds), [d])
  {
    var t := s[i + 2..];
    assert s == s[..i] + ([d] + ([d] + t));
    RemoveAllAppend(s[..i], [d] + ([d] + t), ds);
    RemoveAllAppend([d], [d] + t, ds);
    RemoveAllAppend([d], t, ds);
    assert RemoveAll([d], ds) == [d] + RemoveAll([], ds);
    var j := |RemoveAll(s[..i], ds)|;
    var u := RemoveAll(s, ds);
    assert u == RemoveAll(s[..i], ds) + ([d] + ([d] + RemoveAll(t, ds)));
    assert u[j] == d && u[j + 1] == d;
  }

  /** Removing `xs` and then `ys` is removing both at once. */
  lemma {:induction false} RemoveAllTwice(s: string, xs: string, ys: string)
    ensures RemoveAll(RemoveAll(s, xs), ys) == RemoveAll(s, xs + ys)
  {
    if s != [] {
      RemoveAllTwice(s[1..], xs, ys);
      if s[0] !in xs {
        assert RemoveAll(s, xs) == [s[0]] + RemoveAll(s[1..], xs);
      }
    }
  }

  /** If no piece after the first of splitting at `xs + [d]` is empty, then neither is any
      piece after the first of splitting at `d` once `xs` is removed; and the same for the
      first pieces. */
  lemma {:induction false} SplitRemovedNoEmpty(s: string, xs: string, d: char)
    requires [] !in SplitOn(s, xs + [d])[1..]
    ensures [] !in SplitOn(RemoveAll(s, xs), [d])[1..]
    ensures SplitOn(s, xs + [d])[0] != [] ==> SplitOn(RemoveAll(s, xs), [d])[0] != []
  {
    if s != [] {
      var c, t := s[0], s[1..];
      assert s == [c] + t;
      var es := xs + [d];
      SplitOnCons(c, t, es);
      var r := SplitOn(t, es);
      var u := RemoveAll(t, xs);
      if c in xs {
        assert c in es;
        assert SplitOn(s, es)[1..] == r;
        assert r[1..] == r[1..] && r[0] in r;
        SplitRemovedNoEmpty(t, xs, d);
        assert RemoveAll(s, xs) == u;
        assert forall x :: x in SplitOn(u, [d])[1..] ==> x in SplitOn(u, [d]);
      } else if c == d {
        assert c in es;
        assert SplitOn(s, es)[1..] == r;
        assert r[0] in r;
        assert forall x :: x in r[1..] ==> x in r;
        SplitRemovedNoEmpty(t, xs, d);
        assert RemoveAll(s, xs) == [c] + u;
        SplitOnCons(c, u, [d]);
        assert SplitOn([c] + u, [d])[1..] == SplitOn(u, [d]);
        assert SplitOn(u, [d]) == [SplitOn(u, [d])[0]] + SplitOn(u, [d])[1..];
      } else {
        assert c !in es;
        assert SplitOn(s, es)[1..] == r[1..];
        SplitRemovedNoEmpty(t, xs, d);
        assert RemoveAll(s, xs) == [c] + u;
        SplitOnCons(c, u, [d]);
        assert SplitOn([c] + u, [d])[1..] == SplitOn(u, [d])[1..];
      }
    }
  }

  /** More separators can only add empty pieces. */
  lemma EmptyTokenMonotone(s: string, xs: string, ys: string)
    requires forall c :: c in xs ==> c in ys
    ensures HasEmptyToken(s, xs) ==> HasEmptyToken(s, ys)
  {
  }

  /** Splitting at a separator in the middle splits both sides. */
  lemma {:induction false} SplitOnAround(a: string, d: char, b: string, ds: string)
    requires d in ds
    ensures SplitOn(a + [d] + b, ds) == SplitOn(a, ds) + SplitOn(b, ds)
  {
    if a == [] {
      assert a + [d] + b == [d] + b;
      SplitOnCons(d, b, ds);
    } else {
      SplitOnAround(a[1..], d, b, ds);
      SplitOnAroundTurn(a[0], a[1..], d, b, ds);
      assert a == [a[0]] + a[1..];
    }
  }

  lemma SplitOnAroundTurn(c: char, t: string, d: char, b: string, ds: string)
    requires SplitOn(t + [d] + b, ds) == SplitOn(t, ds) + SplitOn(b, ds)
    ensures SplitOn([c] + t + [d] + b, ds) == SplitOn([c] + t, ds) + SplitOn(b, ds)
  {
    assert [c] + t + [d] + b == [c] + (t + [d] + b);
    SplitOnCons(c, t + [d] + b, ds);
    SplitOnCons(c, t, ds);
    if c !in ds {
      ConsHead(c, SplitOn(t, ds), SplitOn(b, ds));
    } else {
      ConsEmpty(SplitOn(t, ds), SplitOn(b, ds));
    }
  }

  /** Extending the first piece of `l + r` extends the first piece of `l`. */
  lemma ConsHead(c: char, l: seq<string>, r: seq<string>)
    requires l != []
    ensures [[c] + (l + r)[0]] + (l + r)[1..] == ([[c] + l[0]] + l[1..]) + r
  {
    assert (l + r)[0] == l[0] && (l + r)[1..] == l[1..] + r;
  }

  lemma ConsEmpty(l: seq<string>, r: seq<string>)
    ensures [[]] + (l + r) == ([[]] + l) + r
  {
  }

  /** The number of characters of `s` that occur in `ds`. */
  function Count(s: string, ds: string): (r: nat)
    ensures r <= |s|
  {
    if s == [] then 0
    else (if s[0] in ds then 1 else 0) + Count(s[1..], ds)
  }

  /** `s.endswith(suffix)`. */
  predicate EndsWith(s: string, suffix: string) {
    |suffix| <= |s| && s[|s| - |suffix|..] == suffix
  }

  /** The characters Python's `str.isspace()` accepts. */
  predicate IsSpace(c: char) {
    c == ' ' || '\t' <= c <= '\r' || '\U{1c}' <= c <= '\U{1f}' || c == '\U{85}' || c == '\U{a0}'
    || c == '\U{1680}' || '\U{2000}' <= c <= '\U{200a}' || c == '\U{2028}' || c == '\U{2029}'
    || c == '\U{202f}' || c == '\U{205f}' || c == '\U{3000}'
  }

  /** The longest prefix of `s` free of whitespace. */
  function Word(s: string): (w: string)
    ensures |w| <= |s| && w == s[..|w|]
    ensures forall c :: c in w ==> !IsSpace(c)
    ensures |w| < |s| ==> IsSpace(s[|w|])
  {
    if s == [] || IsSpace(s[0]) then [] else [s[0]] + Word(s[1..])
  }

  /** `s.split()`: the maximal runs of non-whitespace characters, in order. */
  function SplitWhitespace(s: string): (r: seq<string>)
    ensures forall t :: t in r ==> t != [] && forall c :: c in t ==> !IsSpace(c)
    decreases |s|
  {
    if s == [] then []
    else if IsSpace(s[0]) then SplitWhitespace(s[1..])
    else
      var w := Word(s);
      [w] + SplitWhitespace(s[|w|..])
  }

  /** The pieces of `s.split()` put together again are `s` without its whitespace. */
  lemma {:induction false} SplitWhitespaceConcat(s: string)
    ensures Concat(SplitWhitespace(s)) == RemoveSpaces(s)
    decreases |s|
  {
    if s != [] {
      if IsSpace(s[0]) {
        SplitWhitespaceConcat(s[1..]);
      } else {
        var w := Word(s);
        SplitWhitespaceConcat(s[|w|..]);
        WordRemoveSpaces(s);
      }
    }
  }

  /** `s` without its whitespace. */
  function RemoveSpaces(s: string): string {
    if s == [] then [] else (if IsSpace(s[0]) then [] else [s[0]]) + RemoveSpaces(s[1..])
  }

  lemma {:induction false} WordRemoveSpaces(s: string)
    requires s != [] && !IsSpace(s[0])
    ensures RemoveSpaces(s) == Word(s) + RemoveSpaces(s[|Word(s)|..])
    decreases |s|
  {
    var t := s[1..];
    assert Word(s) == [s[0]] + Word(t);
    assert RemoveSpaces(s) == [s[0]] + RemoveSpaces(t);
    if t != [] && !IsSpace(t[0]) {
      WordRemoveSpaces(t);
      assert s[|Word(s)|..] == t[|Word(t)|..];
    } else {
      assert Word(t) == [];
      assert s[|Word(s)|..] == t;
    }
  }
}
