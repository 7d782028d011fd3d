/** What the two logical-ID normalisers share: the word delimiters, the per-token
    capitalisation they apply after splitting, and a per-character reference
    definition of their result. */
module LogicalNames {
  import opened Text
  import opened Wrappers

  /** The word delimiters, in the order both normalisers split on them. */
  const Delims: string := " -_"

  /** A delimiter set that case mapping cannot reach: no ASCII letters in it. */
  predicate NoLetters(ds: string) {
    forall c :: c in ds ==> !IsAsciiUpper(c) && !IsAsciiLower(c)
  }

  /** The case a kept character gets: upper at a word start, otherwise lower-cased
      (when `lowerRest`) or as it was. */
  function Cap(c: char, boundary: bool, lowerRest: bool): char {
    if boundary then Upper(c) else if lowerRest then Lower(c) else c
  }

  /** Reference normaliser, character by character: the characters of `ds` are dropped;
      a kept character that starts the string or follows a dropped one is upper-cased,
      every other kept character is lower-cased (`lowerRest`) or kept. `boundary` says
      whether the first character of `s` starts a word. */
  function Camel(s: string, ds: string, lowerRest: bool, boundary: bool): string {
    if s == [] then []
    else if s[0] in ds then Camel(s[1..], ds, lowerRest, true)
    else [Cap(s[0], boundary, lowerRest)] + Camel(s[1..], ds, lowerRest, false)
  }

  /** The part of a token after its first character, as the normaliser writes it. */
  function Rest(t: string, lowerRest: bool): string {
    if lowerRest then LowerStr(t) else t
  }

  /** `token[0].upper() + token[1:]` (or `+ token[1:].lower()`). */
  function CapToken(t: string, lowerRest: bool): string
    requires t != []
  {
    [Upper(t[0])] + Rest(t[1..], lowerRest)
  }

  /** `"".join([CapToken(token) for token in tokens])`; `token[0]` raises IndexError on an
      empty token. */
  function CapitalizeAll(tokens: seq<string>, lowerRest: bool): (r: Result<string>)
    ensures r.Err? <==> [] in tokens
    ensures r.Err? ==> r.error == IndexError
  {
    if tokens == [] then Ok([])
    else if tokens[0] == [] then Err(IndexError)
    else
      var rest :- CapitalizeAll(tokens[1..], lowerRest);
      assert tokens == [tokens[0]] + tokens[1..];
      Ok(CapToken(tokens[0], lowerRest) + rest)
  }

  lemma CamelCons(c: char, t: string, ds: string, lowerRest: bool, boundary: bool)
    ensures Camel([c] + t, ds, lowerRest, boundary) ==
      if c in ds then Camel(t, ds, lowerRest, true)
      else [Cap(c, boundary, lowerRest)] + Camel(t, ds, lowerRest, false)
  {
    assert ([c] + t)[1..] == t;
  }

  lemma CapitalizeAllCons(tok: string, toks: seq<string>, lowerRest: bool)
    requires tok != [] && [] !in toks
    ensures CapitalizeAll([tok] + toks, lowerRest)
      == Ok(CapToken(tok, lowerRest) + CapitalizeAll(toks, lowerRest).value)
  {
    assert ([tok] + toks)[1..] == toks;
  }

  /** Splitting at the delimiters and capitalising every piece is the reference
      normaliser, provided no piece is empty. */
  lemma {:induction false} CapitalizeSplitIsCamel(s: string, ds: string, lowerRest: bool)
    requires [] !in SplitOn(s, ds)
    ensures CapitalizeAll(SplitOn(s, ds), lowerRest) == Ok(Camel(s, ds, lowerRest, true))
    decreases |s|, 1
  {
    var c, t := s[0], s[1..];
    assert s == [c] + t;
    SplitTail(c, t, ds);
    CapitalizeRestIsCamel(t, ds, lowerRest);
    SplitTurn(c, t, ds, lowerRest);
  }

  /** The same for a string that continues a word: its first piece keeps the case of
      its first character. */
  lemma {:induction false} CapitalizeRestIsCamel(s: string, ds: string, lowerRest: bool)
    requires [] !in SplitOn(s, ds)[1..]
    ensures CapitalizeAll(SplitOn(s, ds)[1..], lowerRest).Ok?
    ensures Rest(SplitOn(s, ds)[0], lowerRest) + CapitalizeAll(SplitOn(s, ds)[1..], lowerRest).value
      == Camel(s, ds, lowerRest, false)
    decreases |s|, 0
  {
    if s != [] {
      var c, t := s[0], s[1..];
      assert s == [c] + t;
      RestTail(c, t, ds);
      if c in ds {
        CapitalizeSplitIsCamel(t, ds, lowerRest);
        RestDelimiterTurn(c, t, ds, lowerRest);
      } else {
        CapitalizeRestIsCamel(t, ds, lowerRest);
        RestKeptTurn(c, t, ds, lowerRest);
      }
    }
  }

  /** What `CapitalizeSplitIsCamel` states of `s`. */
  predicate SplitCamel(s: string, ds: string, lowerRest: bool) {
    CapitalizeAll(SplitOn(s, ds), lowerRest) == Ok(Camel(s, ds, lowerRest, true))
  }

  /** What `CapitalizeRestIsCamel` states of `s`. */
  predicate RestCamel(s: string, ds: string, lowerRest: bool) {
    && CapitalizeAll(SplitOn(s, ds)[1..], lowerRest).Ok?
    && Rest(SplitOn(s, ds)[0], lowerRest) + CapitalizeAll(SplitOn(s, ds)[1..], lowerRest).value
      == Camel(s, ds, lowerRest, false)
  }

  /** A split with no empty piece starts with a kept character, and its later pieces are
      those of the rest of the string. */
  lemma SplitTail(c: char, t: string, ds: string)
    requires [] !in SplitOn([c] + t, ds)
    ensures c !in ds && [] !in SplitOn(t, ds)[1..]
  {
    SplitOnCons(c, t, ds);
    var r := SplitOn(t, ds);
    if c !in ds {
      assert forall u :: u in r[1..] ==> u in SplitOn([c] + t, ds);
    }
  }

  lemma RestTail(c: char, t: string, ds: string)
    requires [] !in SplitOn([c] + t, ds)[1..]
    ensures c in ds ==> [] !in SplitOn(t, ds)
    ensures c !in ds ==> [] !in SplitOn(t, ds)[1..]
  {
    SplitOnCons(c, t, ds);
  }

  lemma SplitTurn(c: char, t: string, ds: string, lowerRest: bool)
    requires c !in ds && [] !in SplitOn(t, ds)[1..] && RestCamel(t, ds, lowerRest)
    ensures SplitCamel([c] + t, ds, lowerRest)
  {
    var r := SplitOn(t, ds);
    var tok := [c] + r[0];
    var head := Rest(r[0], lowerRest);
    var x := CapitalizeAll(r[1..], lowerRest).value;
    assert tok[0] == c && tok[1..] == r[0];
    calc {
      CapitalizeAll(SplitOn([c] + t, ds), lowerRest);
      { SplitOnCons(c, t, ds); }
      CapitalizeAll([tok] + r[1..], lowerRest);
      { CapitalizeAllCons(tok, r[1..], lowerRest); }
      Ok(([Upper(c)] + head) + x);
      { assert ([Upper(c)] + head) + x == [Upper(c)] + (head + x); }
      Ok([Cap(c, true, lowerRest)] + Camel(t, ds, lowerRest, false));
      { CamelCons(c, t, ds, lowerRest, true); }
      Ok(Camel([c] + t, ds, lowerRest, true));
    }
  }

  lemma RestDelimiterTurn(c: char, t: string, ds: string, lowerRest: bool)
    requires c in ds && SplitCamel(t, ds, lowerRest)
    ensures RestCamel([c] + t, ds, lowerRest)
  {
    SplitOnCons(c, t, ds);
    CamelCons(c, t, ds, lowerRest, false);
    assert SplitOn([c] + t, ds)[1..] == SplitOn(t, ds);
  }

  lemma RestKeptTurn(c: char, t: string, ds: string, lowerRest: bool)
    requires c !in ds && RestCamel(t, ds, lowerRest)
    ensures RestCamel([c] + t, ds, lowerRest)
  {
    var r := SplitOn(t, ds);
    var tok := [c] + r[0];
    var head := Rest(r[0], lowerRest);
    var x := CapitalizeAll(r[1..], lowerRest).value;
    assert SplitOn([c] + t, ds)[0] == tok && SplitOn([c] + t, ds)[1..] == r[1..] by {
      SplitOnCons(c, t, ds);
      assert SplitOn([c] + t, ds) == [tok] + r[1..];
    }
    assert Rest(tok, lowerRest) + x == Camel([c] + t, ds, lowerRest, false) by {
      calc {
        Rest(tok, lowerRest) + x;
        { RestCons(c, r[0], lowerRest); }
        ([Cap(c, false, lowerRest)] + head) + x;
        { assert ([Cap(c, false, lowerRest)] + head) + x == [Cap(c, false, lowerRest)] + (head + x); }
        [Cap(c, false, lowerRest)] + Camel(t, ds, lowerRest, false);
        { CamelCons(c, t, ds, lowerRest, false); }
        Camel([c] + t, ds, lowerRest, false);
      }
    }
  }

  lemma RestCons(c: char, t: string, lowerRest: bool)
    ensures Rest([c] + t, lowerRest) == [Cap(c, false, lowerRest)] + Rest(t, lowerRest)
  {
    if lowerRest {
      LowerStrCons(c, t);
    }
  }

  /** The reference result is as long as the input without its delimiters. */
  lemma {:induction false} CamelLength(s: string, ds: string, lowerRest: bool, boundary: bool)
    ensures |Camel(s, ds, lowerRest, boundary)| == |s| - Count(s, ds)
  {
    if s != [] {
      CamelLength(s[1..], ds, lowerRest, s[0] in ds);
      CamelLength(s[1..], ds, lowerRest, false);
    }
  }

  /** The reference result contains no delimiter. */
  lemma {:induction false} CamelNoDelimiters(s: string, ds: string, lowerRest: bool, boundary: bool)
    requires NoLetters(ds)
    ensures forall c :: c in Camel(s, ds, lowerRest, boundary) ==> c !in ds
  {
    if s != [] {
      CamelNoDelimiters(s[1..], ds, lowerRest, true);
      CamelNoDelimiters(s[1..], ds, lowerRest, false);
      if s[0] !in ds {
        var x := Cap(s[0], boundary, lowerRest);
        assert x == s[0] || IsAsciiUpper(x) || IsAsciiLower(x);
      }
    }
  }

  /** The reference result, position by position, is the input without its delimiters
      up to ASCII case. */
  lemma {:induction false} CamelCaseOf(s: string, ds: string, lowerRest: bool, boundary: bool)
    ensures |Camel(s, ds, lowerRest, boundary)| == |RemoveAll(s, ds)|
    ensures forall i :: 0 <= i < |RemoveAll(s, ds)| ==>
      Lower(Camel(s, ds, lowerRest, boundary)[i]) == Lower(RemoveAll(s, ds)[i])
  {
    if s != [] {
      var t := s[1..];
      if s[0] in ds {
        CamelCaseOf(t, ds, lowerRest, true);
      } else {
        CamelCaseOf(t, ds, lowerRest, false);
        UpperLowerFacts(s[0]);
        var a := Camel(s, ds, lowerRest, boundary);
        var b := RemoveAll(s, ds);
        assert a == [Cap(s[0], boundary, lowerRest)] + Camel(t, ds, lowerRest, false);
        assert b == [s[0]] + RemoveAll(t, ds);
        forall i | 0 <= i < |b| ensures Lower(a[i]) == Lower(b[i]) {
          if i > 0 {
            assert a[i] == Camel(t, ds, lowerRest, false)[i - 1];
            assert b[i] == RemoveAll(t, ds)[i - 1];
          }
        }
      }
    }
  }

  /** Upper-casing the string that a pass produced and splitting it again finds an empty
      piece exactly where the input without the earlier delimiters does. */
  lemma CamelEmptyToken(s: string, ds: string, lowerRest: bool, boundary: bool, d: char)
    requires NoLetters([d])
    ensures HasEmptyToken(Camel(s, ds, lowerRest, boundary), [d]) <==> HasEmptyToken(RemoveAll(s, ds), [d])
  {
    var a := Camel(s, ds, lowerRest, boundary);
    var b := RemoveAll(s, ds);
    CamelCaseOf(s, ds, lowerRest, boundary);
    forall i | 0 <= i < |a| ensures a[i] in [d] <==> b[i] in [d] {
      UpperLowerFacts(a[i]);
      UpperLowerFacts(b[i]);
      assert !IsAsciiUpper(d) && !IsAsciiLower(d);
    }
    EmptyTokenSameSeparators(a, b, [d]);
  }

  /** Running the keep-case pass for `d` over the result of the passes for `ds` is
      one pass for `ds + [d]`. */
  lemma {:induction false} CamelCompose(s: string, ds: string, d: char, b1: bool, b2: bool)
    requires d !in ds && NoLetters(ds + [d])
    ensures Camel(Camel(s, ds, false, b1), [d], false, b2) == Camel(s, ds + [d], false, b1 || b2)
  {
    if s != [] {
      var c, t := s[0], s[1..];
      assert s == [c] + t;
      CamelCons(c, t, ds, false, b1);
      CamelCons(c, t, ds + [d], false, b1 || b2);
      assert d in ds + [d];
      if c in ds {
        assert c in ds + [d];
        CamelCompose(t, ds, d, true, b2);
      } else if c == d {
        assert !IsAsciiLower(d);
        assert Cap(c, b1, false) == d;
        CamelCons(d, Camel(t, ds, false, false), [d], false, b2);
        CamelCompose(t, ds, d, false, true);
      } else {
        assert c !in ds + [d];
        var x := Cap(c, b1, false);
        UpperLowerFacts(c);
        assert x != d by {
          assert !IsAsciiUpper(d) && !IsAsciiLower(d);
        }
        CamelCons(x, Camel(t, ds, false, false), [d], false, b2);
        CamelCompose(t, ds, d, false, false);
      }
    }
  }

  /** A string with no delimiter is normalised by fixing the case of its first
      character (and, with `lowerRest`, of the others). */
  lemma {:induction false} CamelNoDelimiterInput(s: string, ds: string, lowerRest: bool, boundary: bool)
    requires forall c :: c in s ==> c !in ds
    ensures s != [] ==>
      Camel(s, ds, lowerRest, boundary) == [Cap(s[0], boundary, lowerRest)] + Rest(s[1..], lowerRest)
    ensures s == [] ==> Camel(s, ds, lowerRest, boundary) == []
  {
    if s != [] {
      var t := s[1..];
      assert forall c :: c in t ==> c in s;
      CamelNoDelimiterInput(t, ds, lowerRest, false);
      assert Camel(t, ds, lowerRest, false) == Rest(t, lowerRest) by {
        if t != [] {
          assert t == [t[0]] + t[1..];
          RestCons(t[0], t[1..], lowerRest);
        }
      }
      assert s == [s[0]] + t;
      CamelCons(s[0], t, ds, lowerRest, boundary);
    }
  }

  /** The first character of a normalised string that starts a word is upper-case
      (stays fixed under upper-casing). */
  lemma {:induction false} CamelFirstUpper(s: string, ds: string, lowerRest: bool)
    requires Camel(s, ds, lowerRest, true) != []
    ensures Upper(Camel(s, ds, lowerRest, true)[0]) == Camel(s, ds, lowerRest, true)[0]
  {
    if s[0] in ds {
      CamelFirstUpper(s[1..], ds, lowerRest);
    } else {
      UpperLowerFacts(s[0]);
    }
  }

  lemma {:induction false} RemoveAllKeeps(s: string, ds: string, c: char)
    requires c in s && c !in ds
    ensures c in RemoveAll(s, ds)
  {
    if s[0] != c {
      RemoveAllKeeps(s[1..], ds, c);
    }
  }

  lemma {:induction false} RemoveAllNothing(s: string, ds: string)
    requires forall c :: c in s ==> c !in ds
    ensures RemoveAll(s, ds) == s
  {
    if s != [] {
      assert forall c :: c in s[1..] ==> c in s;
      RemoveAllNothing(s[1..], ds);
    }
  }
}
