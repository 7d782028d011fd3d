/** The shared configuration records and `create_logical_id`, which turns a flow name
    into an upper camel case CloudFormation logical ID while keeping the case of every
    character after a word's first. */
module Utils {
  import opened Text
  import opened Wrappers
  import opened LogicalNames

  /** A stack's name and the template file it is deployed from. */
  datatype StackConfig = StackConfig(stackName: string, stackTemplateFile: string)

  /** A Connect summary record (an instance summary or a phone-number summary): its keys
      with their values, in the record's key order. */
  type Summary = seq<(string, string)>

  /** The Connect instance and the two phone numbers the stacks are parameterised with. */
  datatype InstanceConfig = InstanceConfig(instance: Summary, privateNumber: Summary, publicNumber: Summary)

  const MainStackConfig := StackConfig("sicq-main-stack", "./cloudformation/main.yaml")
  const FlowStackConfig := StackConfig("sicq-flow-stack", "./cloudformation/flows.yaml")

  /** Pass `k` of `create_logical_id` meets an empty piece. The passes before it have
      removed the earlier delimiters (up to case, which no delimiter has), so this is stated
      on the input with those delimiters removed. */
  predicate PassFails(name: string, k: nat)
    requires k < |Delims|
  {
    HasEmptyToken(RemoveAll(name, Delims[..k]), [Delims[k]])
  }

  /** When `create_logical_id` raises: some pass meets an empty piece. */
  predicate CreateFails(name: string) {
    PassFails(name, 0) || PassFails(name, 1) || PassFails(name, 2)
  }

  /** What `create_logical_id` computes: IndexError when a pass meets an empty piece,
      otherwise the input without delimiters, upper-cased at every word start. */
  function LogicalIdOf(name: string): Result<string> {
    if CreateFails(name) then Err(IndexError) else Ok(Camel(name, Delims, false, true))
  }

  lemma DelimsFacts()
    ensures Delims[..0] == [] && Delims[..1] == [' '] && Delims[..2] == [' ', '-'] && Delims[..3] == Delims
    ensures forall k :: 0 <= k < |Delims| ==> Delims[k] !in Delims[..k]
    ensures NoLetters(Delims)
    ensures forall k :: 0 <= k <= |Delims| ==> NoLetters(Delims[..k])
  {
  }

  /** The text after the first `k` passes (the input itself before any pass). */
  function AfterPasses(name: string, k: nat): string
    requires k <= |Delims|
  {
    if k == 0 then name else Camel(name, Delims[..k], false, true)
  }

  /** Pass `k` over the text the earlier passes left fails exactly as `PassFails` says,
      and otherwise leaves the text of the first `k + 1` passes. */
  lemma PassTurn(name: string, k: nat)
    requires k < |Delims|
    ensures var pass := CapitalizeAll(Split(AfterPasses(name, k), Delims[k]), false);
      && (pass.Err? <==> PassFails(name, k))
      && (pass.Ok? ==> pass.value == AfterPasses(name, k + 1))
  {
    DelimsFacts();
    var d, s := Delims[k], AfterPasses(name, k);
    assert NoLetters([d]) by { assert d in Delims; }
    EmptyTokenIff(s, [d]);
    assert PassFails(name, k) <==> HasEmptyToken(s, [d]) by {
      if k == 0 {
        RemoveAllNothing(name, []);
      } else {
        CamelEmptyToken(name, Delims[..k], false, true, d);
      }
    }
    if [] !in SplitOn(s, [d]) {
      CapitalizeSplitIsCamel(s, [d], false);
      assert Delims[..k + 1] == Delims[..k] + [d];
      if k > 0 {
        CamelCompose(name, Delims[..k], d, true, true);
      }
    }
  }

  /** `create_logical_id`: one split-and-capitalise pass per delimiter, in order. */
  method CreateLogicalId(name: string) returns (r: Result<string>)
    ensures r == LogicalIdOf(name)
  {
    var logicalId := name;
    for k := 0 to |Delims|
      invariant logicalId == AfterPasses(name, k)
      invariant forall j :: 0 <= j < k ==> !PassFails(name, j)
    {
      var pass := CapitalizeAll(Split(logicalId, Delims[k]), false);
      PassTurn(name, k);
      if pass.Err? {
        return Err(IndexError);
      }
      logicalId := pass.value;
    }
    assert Delims[..|Delims|] == Delims;
    return Ok(logicalId);
  }

  /** A pass over words that are all non-empty finds no empty piece. */
  lemma PassSucceeds(name: string, k: nat)
    requires k < |Delims| && !HasEmptyToken(name, Delims)
    ensures !PassFails(name, k)
  {
    DelimsFacts();
    var d := Delims[k];
    assert Delims[..k + 1] == Delims[..k] + [d];
    EmptyTokenIff(name, Delims[..k + 1]);
    EmptyTokenMonotone(name, Delims[..k + 1], Delims);
    var pieces := SplitOn(name, Delims[..k] + [d]);
    assert forall x :: x in pieces[1..] ==> x in pieces;
    SplitRemovedNoEmpty(name, Delims[..k], d);
    var after := SplitOn(RemoveAll(name, Delims[..k]), [d]);
    assert after == [after[0]] + after[1..];
    EmptyTokenIff(RemoveAll(name, Delims[..k]), [d]);
  }

  /** A name whose words are all non-empty is normalised word by word: each word with
      only its first character upper-cased, the rest keeping its case. */
  lemma LogicalIdWords(name: string)
    requires !HasEmptyToken(name, Delims)
    ensures LogicalIdOf(name) == CapitalizeAll(SplitOn(name, Delims), false)
  {
    PassSucceeds(name, 0);
    PassSucceeds(name, 1);
    PassSucceeds(name, 2);
    EmptyTokenIff(name, Delims);
    CapitalizeSplitIsCamel(name, Delims, false);
  }

  /** A delimiter-free name that starts upper-case is its own ID. */
  lemma LogicalIdFixed(v: string)
    requires v != [] && Upper(v[0]) == v[0]
    requires forall c :: c in v ==> c !in Delims
    ensures LogicalIdOf(v) == Ok(v)
  {
    DelimsFacts();
    RemoveAllNothing(v, Delims[..0]);
    RemoveAllNothing(v, Delims[..1]);
    RemoveAllNothing(v, Delims[..2]);
    assert forall i :: 0 <= i < |v| ==> v[i] in v;
    assert !CreateFails(v);
    CamelNoDelimiterInput(v, Delims, false, true);
    assert v == [v[0]] + v[1..];
  }

  /** `name` leads, ends with, or doubles the delimiter of pass `k`. */
  predicate MisplacedDelimiter(name: string, k: nat)
    requires k < |Delims|
  {
    var d := Delims[k];
    name == [] || name[0] == d || name[|name| - 1] == d
    || exists i :: 0 <= i < |name| - 1 && name[i] == d && name[i + 1] == d
  }

  lemma {:induction false} MisplacedDelimiterFails(name: string, k: nat)
    requires k < |Delims| && MisplacedDelimiter(name, k)
    ensures PassFails(name, k)
  {
    DelimsFacts();
    var d, ds := Delims[k], Delims[..k];
    assert d !in ds;
    if name == [] {
    } else if name[0] == d {
      RemoveKeepsFirst(name, d, ds);
    } else if name[|name| - 1] == d {
      RemoveKeepsLast(name, d, ds);
    } else {
      var i :| 0 <= i < |name| - 1 && name[i] == d && name[i + 1] == d;
      RemoveKeepsPair(name, d, ds, i);
    }
  }

  /** The empty name and names that lead, end with, or double a delimiter of one kind are
      rejected. */
  lemma LogicalIdRejects(name: string, k: nat)
    requires k < |Delims| && MisplacedDelimiter(name, k)
    ensures LogicalIdOf(name) == Err(IndexError)
  {
    MisplacedDelimiterFails(name, k);
  }

  lemma CapitalizedWords()
    ensures CapToken("Test", false) + CapToken("Logical", false) + CapToken("Value", false) == "TestLogicalValue"
    ensures CapToken("test", false) + CapToken("logical", false) + CapToken("value", false) == "TestLogicalValue"
    ensures CapToken("Test", false) + CapToken("logical", false) + CapToken("value", false) == "TestLogicalValue"
  {
    assert CapToken("Test", false) == "Test" && CapToken("test", false) == "Test";
    assert CapToken("Logical", false) == "Logical" && CapToken("logical", false) == "Logical";
    assert CapToken("Value", false) == "Value" && CapToken("value", false) == "Value";
  }

  /** A word: text without any delimiter. */
  predicate Word(w: string) {
    forall c :: c in w ==> c !in Delims
  }

  lemma TestNameWords()
    ensures Word("Test") && Word("Logical") && Word("Value")
    ensures Word("test") && Word("logical") && Word("value")
  {
  }

  /** The names of the module's tests all normalise to the same ID. */
  lemma CreateLogicalIdSpaces()
    ensures LogicalIdOf("Test Logical Value") == Ok("TestLogicalValue")
  {
    assert "Test Logical Value" == "Test" + [' '] + "Logical" + [' '] + "Value";
    TestNameWords();
    CapitalizedWords();
    ThreeWords("Test Logical Value", "Test", ' ', "Logical", ' ', "Value");
  }

  lemma CreateLogicalIdHyphens()
    ensures LogicalIdOf("test-logical-value") == Ok("TestLogicalValue")
  {
    assert "test-logical-value" == "test" + ['-'] + "logical" + ['-'] + "value";
    TestNameWords();
    CapitalizedWords();
    ThreeWords("test-logical-value", "test", '-', "logical", '-', "value");
  }

  lemma CreateLogicalIdMixed()
    ensures LogicalIdOf("Test_logical-value") == Ok("TestLogicalValue")
  {
    assert "Test_logical-value" == "Test" + ['_'] + "logical" + ['-'] + "value";
    TestNameWords();
    CapitalizedWords();
    ThreeWords("Test_logical-value", "Test", '_', "logical", '-', "value");
  }

  lemma ThreeWordsSplit(w1: string, d1: char, w2: string, d2: char, w3: string)
    requires d1 in Delims && d2 in Delims && Word(w1) && Word(w2) && Word(w3)
    ensures SplitOn(w1 + [d1] + w2 + [d2] + w3, Delims) == [w1, w2, w3]
  {
    assert w1 + [d1] + w2 + [d2] + w3 == w1 + [d1] + (w2 + [d2] + w3);
    SplitOnAround(w1, d1, w2 + [d2] + w3, Delims);
    SplitOnAround(w2, d2, w3, Delims);
    SplitOnNoSeparator(w1, Delims);
    SplitOnNoSeparator(w2, Delims);
    SplitOnNoSeparator(w3, Delims);
  }

  lemma CapitalizeThree(w1: string, w2: string, w3: string)
    requires w1 != [] && w2 != [] && w3 != []
    ensures CapitalizeAll([w1, w2, w3], false)
      == Ok(CapToken(w1, false) + CapToken(w2, false) + CapToken(w3, false))
  {
    CapitalizeAllCons(w3, [], false);
    CapitalizeAllCons(w2, [w3], false);
    CapitalizeAllCons(w1, [w2, w3], false);
    assert [w1, w2, w3] == [w1] + [w2, w3] && [w2, w3] == [w2] + [w3] && [w3] == [w3] + [];
    var a, b, c := CapToken(w1, false), CapToken(w2, false), CapToken(w3, false);
    assert CapitalizeAll([w3], false) == Ok(c + []) && c + [] == c;
    assert a + (b + c) == a + b + c;
  }

  /** A name of three non-empty words separated by single delimiters is normalised
      word by word. */
  lemma ThreeWords(name: string, w1: string, d1: char, w2: string, d2: char, w3: string)
    requires name == w1 + [d1] + w2 + [d2] + w3
    requires w1 != [] && w2 != [] && w3 != [] && d1 in Delims && d2 in Delims
    requires Word(w1) && Word(w2) && Word(w3)
    ensures LogicalIdOf(name) == Ok(CapToken(w1, false) + CapToken(w2, false) + CapToken(w3, false))
  {
    ThreeWordsSplit(w1, d1, w2, d2, w3);
    EmptyTokenIff(name, Delims);
    LogicalIdWords(name);
    CapitalizeThree(w1, w2, w3);
  }

  /** The display name the flow-templating tests use. */
  lemma MockTextId()
    ensures LogicalIdOf("mock text") == Ok("MockText")
  {
    MockTextWords();
    TwoWords("mock text", "mock", ' ', "text");
  }

  lemma MockTextWords()
    ensures "mock text" == "mock" + [' '] + "text"
    ensures Word("mock") && Word("text")
    ensures CapToken("mock", false) + CapToken("text", false) == "MockText"
  {
    assert CapToken("mock", false) == "Mock";
    assert CapToken("text", false) == "Text";
  }

  lemma TwoWords(name: string, w1: string, d: char, w2: string)
    requires name == w1 + [d] + w2
    requires w1 != [] && w2 != [] && d in Delims && Word(w1) && Word(w2)
    ensures LogicalIdOf(name) == Ok(CapToken(w1, false) + CapToken(w2, false))
  {
    SplitOnAround(w1, d, w2, Delims);
    SplitOnNoSeparator(w1, Delims);
    SplitOnNoSeparator(w2, Delims);
    assert SplitOn(name, Delims) == [w1, w2];
    EmptyTokenIff(name, Delims);
    LogicalIdWords(name);
    CapitalizeAllCons(w2, [], false);
    CapitalizeAllCons(w1, [w2], false);
    assert [w1, w2] == [w1] + [w2] && [w2] == [w2] + [];
    assert CapToken(w2, false) + [] == CapToken(w2, false);
  }

  /** A successful ID has no delimiter and is the input less its delimiter characters. */
  lemma LogicalIdShape(name: string)
    requires LogicalIdOf(name).Ok?
    ensures forall c :: c in LogicalIdOf(name).value ==> c !in Delims
    ensures |LogicalIdOf(name).value| == |name| - Count(name, Delims)
  {
    DelimsFacts();
    CamelNoDelimiters(name, Delims, false, true);
    CamelLength(name, Delims, false, true);
  }

  /** Different delimiters next to each other are not always rejected: the space pass
      leaves "-_b" on its second piece, and the later passes find no empty piece. */
  lemma MixedDelimitersAccepted()
    ensures LogicalIdOf("a -_b") == Ok("AB")
  {
    DelimsFacts();
    RemoveAllNothing("a -_b", "");
    MixedRemovedSpace();
    MixedRemovedSpaceHyphen();
    MixedPieces();
    MixedCamel();
  }

  lemma MixedRemovedSpace() ensures RemoveAll("a -_b", " ") == "a-_b" {}

  lemma MixedRemovedSpaceHyphen() ensures RemoveAll("a -_b", " -") == "a_b" {}

  lemma MixedPieces()
    ensures !HasEmptyToken("a -_b", " ") && !HasEmptyToken("a-_b", "-") && !HasEmptyToken("a_b", "_")
  {
  }

  lemma MixedCamel() ensures Camel("a -_b", " -_", false, true) == "AB" {}

  /** Normalising an ID again changes nothing. */
  lemma LogicalIdIdempotent(name: string)
    requires LogicalIdOf(name).Ok?
    ensures LogicalIdOf(LogicalIdOf(name).value) == LogicalIdOf(name)
  {
    DelimsFacts();
    var v := Camel(name, Delims, false, true);
    LogicalIdShape(name);
    var u := RemoveAll(name, Delims[..2]);
    assert !PassFails(name, 2);
    assert u != [] && u[0] != '_';
    assert RemoveAll(u, "_") == [u[0]] + RemoveAll(u[1..], "_");
    RemoveAllTwice(name, Delims[..2], "_");
    assert Delims[..2] + "_" == Delims;
    CamelCaseOf(name, Delims, false, true);
    CamelFirstUpper(name, Delims, false);
    LogicalIdFixed(v);
  }
}
