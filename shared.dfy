/** The older shared helpers: `logical_id`, which lower-cases every character after a
    word's first, and the two file-name helpers. */
module Shared {
  import opened Text
  import opened Wrappers
  import opened LogicalNames
  import Utils

  /** What `logical_id` computes: IndexError when some word is empty, otherwise the
      input without delimiters, upper-cased at every word start and lower-cased elsewhere. */
  function LowerLogicalIdOf(name: string): Result<string> {
    if HasEmptyToken(name, Delims) then Err(IndexError) else Ok(Camel(name, Delims, true, true))
  }

  lemma SplitEachSnoc(ts: seq<string>, i: nat, d: char)
    requires i < |ts|
    ensures SplitEach(ts[..i + 1], d) == SplitEach(ts[..i], d) + Split(ts[i], d)
  {
    assert ts[..i + 1] == ts[..i] + [ts[i]];
    SplitEachAppend(ts[..i], [ts[i]], d);
    SplitEachCons(ts[i], [], d);
    assert [ts[i]] == [ts[i]] + [];
  }

  /** `logical_id`: the token list is split again at each delimiter in turn (the new
      pieces are appended and the old prefix sliced off), then every token is capitalised. */
  method LogicalId(name: string) returns (r: Result<string>)
    ensures r == LowerLogicalIdOf(name)
  {
    Utils.DelimsFacts();
    SplitOnNoSeparator(name, []);
    var tokens := [name];
    for k := 0 to |Delims|
      invariant tokens == SplitOn(name, Delims[..k])
    {
      var d := Delims[k];
      var start := |tokens|;
      ghost var before := tokens;
      for i := 0 to start
        invariant tokens == before + SplitEach(before[..i], d)
      {
        assert tokens[i] == before[i];
        SplitEachSnoc(before, i, d);
        tokens := tokens + Split(tokens[i], d);
      }
      assert before[..start] == before;
      tokens := tokens[start..];
      SplitEachOn(name, Delims[..k], d);
      assert Delims[..k + 1] == Delims[..k] + [d];
    }
    assert Delims[..|Delims|] == Delims;
    r := CapitalizeAll(tokens, true);
    EmptyTokenIff(name, Delims);
    if r.Ok? {
      CapitalizeSplitIsCamel(name, Delims, true);
    }
  }

  /** A name whose words are all non-empty is normalised word by word: each word's first
      character upper-cased and the rest lower-cased; otherwise `token[0]` fails. */
  lemma LowerLogicalIdWords(name: string)
    ensures LowerLogicalIdOf(name) == CapitalizeAll(SplitOn(name, Delims), true)
  {
    EmptyTokenIff(name, Delims);
    if !HasEmptyToken(name, Delims) {
      CapitalizeSplitIsCamel(name, Delims, true);
    }
  }

  /** A successful ID has no delimiter and is the input less its delimiter characters. */
  lemma LowerLogicalIdShape(name: string)
    requires LowerLogicalIdOf(name).Ok?
    ensures forall c :: c in LowerLogicalIdOf(name).value ==> c !in Delims
    ensures |LowerLogicalIdOf(name).value| == |name| - Count(name, Delims)
  {
    Utils.DelimsFacts();
    CamelNoDelimiters(name, Delims, true, true);
    CamelLength(name, Delims, true, true);
  }

  /** The empty name, and any name with a leading, trailing, or two adjacent delimiters of
      any kinds, is rejected; "a -_b", which `create_logical_id` accepts, is one. */
  lemma LowerLogicalIdRejects(name: string)
    requires name == [] || name[0] in Delims || name[|name| - 1] in Delims || Doubled(name, Delims)
    ensures LowerLogicalIdOf(name) == Err(IndexError)
  {
  }

  lemma MixedDelimitersRejected()
    ensures LowerLogicalIdOf("a -_b") == Err(IndexError)
    ensures Utils.LogicalIdOf("a -_b").Ok?
  {
    assert "a -_b"[1] in Delims && "a -_b"[2] in Delims;
    Utils.MixedDelimitersAccepted();
  }

  /** "MOCK TEXT" keeps only its word-initial capitals. */
  lemma LowerLogicalIdExample()
    ensures LowerLogicalIdOf("MOCK TEXT") == Ok("MockText")
  {
    MockWords();
    TwoWords("MOCK TEXT", "MOCK", ' ', "TEXT");
  }

  lemma MockWords()
    ensures "MOCK TEXT" == "MOCK" + [' '] + "TEXT"
    ensures CapToken("MOCK", true) + CapToken("TEXT", true) == "MockText"
  {
    assert CapToken("MOCK", true) == "Mock";
    assert CapToken("TEXT", true) == "Text";
  }

  lemma TwoWords(name: string, w1: string, d: char, w2: string)
    requires name == w1 + [d] + w2
    requires w1 != [] && w2 != [] && d in Delims
    requires forall c :: c in w1 + w2 ==> c !in Delims
    ensures LowerLogicalIdOf(name) == Ok(CapToken(w1, true) + CapToken(w2, true))
  {
    SplitOnAround(w1, d, w2, Delims);
    assert forall c :: c in w1 ==> c in w1 + w2;
    assert forall c :: c in w2 ==> c in w1 + w2;
    SplitOnNoSeparator(w1, Delims);
    SplitOnNoSeparator(w2, Delims);
    assert SplitOn(name, Delims) == [w1, w2];
    EmptyTokenIff(name, Delims);
    LowerLogicalIdWords(name);
    CapitalizeAllCons(w2, [], false);
    CapitalizeAllCons(w2, [], true);
    CapitalizeAllCons(w1, [w2], true);
    assert [w1, w2] == [w1] + [w2] && [w2] == [w2] + [];
    assert CapToken(w2, true) + [] == CapToken(w2, true);
  }

  /** Whenever `logical_id` accepts a name, so does `create_logical_id`, and the two IDs
      differ only in the case of characters after a word's first. */
  lemma NormalisersAgree(name: string)
    requires LowerLogicalIdOf(name).Ok?
    ensures Utils.LogicalIdOf(name).Ok?
    ensures |Utils.LogicalIdOf(name).value| == |LowerLogicalIdOf(name).value|
    ensures forall i :: 0 <= i < |LowerLogicalIdOf(name).value| ==>
      Lower(Utils.LogicalIdOf(name).value[i]) == Lower(LowerLogicalIdOf(name).value[i])
  {
    Utils.PassSucceeds(name, 0);
    Utils.PassSucceeds(name, 1);
    Utils.PassSucceeds(name, 2);
    CamelCaseOf(name, Delims, false, true);
    CamelCaseOf(name, Delims, true, true);
  }

  /** `logical_id` is not idempotent: a second application lower-cases every capital but
      the first. */
  lemma LowerLogicalIdTwice(name: string)
    requires LowerLogicalIdOf(name).Ok?
    ensures LowerLogicalIdOf(name).value != []
    ensures LowerLogicalIdOf(LowerLogicalIdOf(name).value) ==
      Ok([LowerLogicalIdOf(name).value[0]] + LowerStr(LowerLogicalIdOf(name).value[1..]))
  {
    var v := Camel(name, Delims, true, true);
    Utils.DelimsFacts();
    CamelNoDelimiters(name, Delims, true, true);
    CamelCaseOf(name, Delims, true, true);
    assert name[0] !in Delims;
    RemoveAllKeeps(name, Delims, name[0]);
    assert v != [];
    CamelFirstUpper(name, Delims, true);
    assert forall i :: 0 <= i < |v| ==> v[i] in v;
    assert !HasEmptyToken(v, Delims);
    CamelNoDelimiterInput(v, Delims, true, true);
  }

  /** `untemplate_filename`: `name.split(".")[:-1]` joined with ".". */
  function UntemplateFilename(name: string): (r: string)
    ensures |r| <= |name|
  {
    var pieces := Split(name, '.');
    JoinPrefixShape(pieces, |pieces| - 1, ".");
    SplitJoin(name, '.');
    Join(pieces[..|pieces| - 1], ".")
  }

  lemma {:induction false} JoinSnoc(ts: seq<string>, sep: string)
    requires |ts| >= 2
    ensures Join(ts, sep) == Join(ts[..|ts| - 1], sep) + sep + ts[|ts| - 1]
  {
    if |ts| > 2 {
      JoinSnoc(ts[1..], sep);
      assert ts[1..][..|ts[1..]| - 1] == ts[..|ts| - 1][1..];
    } else {
      assert ts[..1] == [ts[0]];
    }
  }

  lemma JoinPrefixShape(ts: seq<string>, n: nat, sep: string)
    requires n + 1 == |ts|
    ensures n == 0 ==> Join(ts[..n], sep) == []
    ensures n > 0 ==> Join(ts, sep) == Join(ts[..n], sep) + sep + ts[n]
    ensures |Join(ts[..n], sep)| <= |Join(ts, sep)|
  {
    if n > 0 {
      JoinSnoc(ts, sep);
    }
  }

  /** A name with a dot is what `untemplate_filename` returns, a dot, and a last part
      free of dots; a name without one gives the empty string. */
  lemma UntemplateFilenameSplits(name: string)
    ensures '.' in name ==> exists ext :: name == UntemplateFilename(name) + "." + ext && '.' !in ext
    ensures '.' !in name ==> UntemplateFilename(name) == []
  {
    var pieces := Split(name, '.');
    var n := |pieces| - 1;
    SplitJoin(name, '.');
    SplitOnPiecesFree(name, ['.']);
    assert pieces[n] in pieces;
    assert n == 0 ==> Join(pieces, ".") == pieces[0];
    if '.' in name {
      JoinPrefixShape(pieces, n, ".");
      assert name == UntemplateFilename(name) + "." + pieces[n];
    } else {
      SplitOnNoSeparator(name, ['.']);
    }
  }

  /** Dropping an extension added after a dot gives the name back. */
  lemma UntemplateFilenameAppend(name: string, ext: string)
    requires '.' !in ext
    ensures UntemplateFilename(name + "." + ext) == name
  {
    assert name + "." + ext == name + ['.'] + ext;
    SplitOnAround(name, '.', ext, ['.']);
    SplitOnNoSeparator(ext, ['.']);
    var pieces := Split(name, '.') + [ext];
    assert pieces[..|pieces| - 1] == Split(name, '.');
    SplitJoin(name, '.');
  }

  /** The template file name the deployment renders, less its ".j2". */
  lemma UntemplateTemplateName()
    ensures UntemplateFilename("cloudformation.yaml.j2") == "cloudformation.yaml"
  {
    assert "cloudformation.yaml.j2" == "cloudformation.yaml" + "." + "j2";
    UntemplateFilenameAppend("cloudformation.yaml", "j2");
  }

  /** A directory path as its segments. */
  type PathSegments = seq<string>

  /** `file_path`: the directory joined with the name plus ".json". */
  function FilePath(directory: PathSegments, name: string): (p: PathSegments)
    ensures |p| == |directory| + 1 && p[..|directory|] == directory
    ensures p[|directory|] == name + ".json"
    ensures UntemplateFilename(p[|directory|]) == name
  {
    UntemplateFilenameAppend(name, "json");
    directory + [name + "." + "json"]
  }
}
