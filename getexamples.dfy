/** The examples in the comment above `Get`, on the compact rendering of
    any document shaped like the one shown there.  Each is the tree lookup
    of the split path, carried over to the byte scan by `QueryAgrees`. */
module GetExamples {
  import opened Text
  import opened Results
  import opened Paths
  import opened Wildcard
  import opened Scanner
  import opened Search
  import opened Documents
  import opened Agreement
  import Escapes

  function Name(first: Bytes, last: Bytes): Json
  {
    JObject([Member("first", JString(first)), Member("last", JString(last))])
  }

  function Children(a: Bytes, b: Bytes, c: Bytes): Json
  {
    JArray([JString(a), JString(b), JString(c)])
  }

  /** `{"name":{"first":F,"last":L},"age":N,"children":[A,B,C]}`; the
      comment has `Tom`, `Anderson`, `37`, `Sara`, `Alex` and `Jack`. */
  function Person(first: Bytes, last: Bytes, age: Bytes, a: Bytes, b: Bytes, c: Bytes): Json
  {
    JObject([Member("name", Name(first, last)), Member("age", JNumber(age)), Member("children", Children(a, b, c))])
  }

  predicate Texts(first: Bytes, last: Bytes, age: Bytes, a: Bytes, b: Bytes, c: Bytes)
  {
    Plain(first) && Plain(last) && NumberText(age) && Plain(a) && Plain(b) && Plain(c)
  }

  lemma PersonGood(first: Bytes, last: Bytes, age: Bytes, a: Bytes, b: Bytes, c: Bytes)
    requires Texts(first, last, age, a, b, c)
    ensures Good(Person(first, last, age, a, b, c))
  {
    NameGood(first, last);
    ChildrenGood(a, b, c);
    var ms := Person(first, last, age, a, b, c).members;
    assert Plain("name") && Plain("age") && Plain("children");
    assert Good(JNumber(age));
    assert forall j :: 0 <= j < |ms| ==> Plain(ms[j].key) && Good(ms[j].value);
  }

  lemma NameGood(first: Bytes, last: Bytes)
    requires Plain(first) && Plain(last)
    ensures Good(Name(first, last))
  {
    var ms := Name(first, last).members;
    assert Plain("first") && Plain("last");
    assert Good(JString(first)) && Good(JString(last));
    assert forall j :: 0 <= j < |ms| ==> Plain(ms[j].key) && Good(ms[j].value);
  }

  lemma ChildrenGood(a: Bytes, b: Bytes, c: Bytes)
    requires Plain(a) && Plain(b) && Plain(c)
    ensures Good(Children(a, b, c))
  {
    var es := Children(a, b, c).elems;
    assert Good(JString(a)) && Good(JString(b)) && Good(JString(c));
    assert forall j :: 0 <= j < |es| ==> Good(es[j]);
  }

  /** `name.last` gives the last name. */
  lemma NameLast(first: Bytes, last: Bytes, age: Bytes, a: Bytes, b: Bytes, c: Bytes, parse: Bytes -> real, upperHex: bool)
    requires Texts(first, last, age, a, b, c)
    ensures Query(Render(Person(first, last, age, a, b, c)), "name.last", parse, upperHex) == Result(String, [], last, 0.0)
  {
    SplitDotted("name", "last");
    assert "name" + "." + "last" == "name.last";
    PersonGood(first, last, age, a, b, c);
    NameLastLookup(first, last, age, a, b, c, parse);
    QueryGives(Person(first, last, age, a, b, c), "name.last", [Part(false, "name"), Part(false, "last")],
               Result(String, [], last, 0.0), parse, upperHex);
  }

  lemma NameLastLookup(first: Bytes, last: Bytes, age: Bytes, a: Bytes, b: Bytes, c: Bytes, parse: Bytes -> real)
    ensures LookupIn(Person(first, last, age, a, b, c), [Part(false, "name"), Part(false, "last")], 0, parse)
         == Some(Result(String, [], last, 0.0))
  {
    var parts := [Part(false, "name"), Part(false, "last")];
    FirstMember(Name(first, last), 0, 1, parts, 1, parse);
    assert LookupIn(Name(first, last), parts, 1, parse) == Some(Result(String, [], last, 0.0));
  }

  /** `age` gives the number, with its text as raw. */
  lemma Age(first: Bytes, last: Bytes, age: Bytes, a: Bytes, b: Bytes, c: Bytes, parse: Bytes -> real, upperHex: bool)
    requires Texts(first, last, age, a, b, c)
    ensures Query(Render(Person(first, last, age, a, b, c)), "age", parse, upperHex) == Result(Number, age, [], parse(age))
  {
    var parts := [Part(false, "age")];
    PathAge();
    PersonGood(first, last, age, a, b, c);
    FirstMember(Person(first, last, age, a, b, c), 0, 1, parts, 0, parse);
    QueryGives(Person(first, last, age, a, b, c), "age", parts, Result(Number, age, [], parse(age)), parse, upperHex);
  }

  lemma PathAge()
    ensures Split("age") == Some([Part(false, "age")])
  {
    SplitSingle("age");
  }

  /** `children.#` gives the number of children. */
  lemma ChildrenCount(first: Bytes, last: Bytes, age: Bytes, a: Bytes, b: Bytes, c: Bytes, parse: Bytes -> real, upperHex: bool)
    requires Texts(first, last, age, a, b, c)
    ensures Query(Render(Person(first, last, age, a, b, c)), "children.#", parse, upperHex) == Count(3)
  {
    var parts := [Part(false, "children"), Part(false, "#")];
    SplitDotted("children", "#");
    assert "children" + "." + "#" == "children.#";
    PersonGood(first, last, age, a, b, c);
    ChildrenCountLookup(first, last, age, a, b, c, parse);
    QueryGives(Person(first, last, age, a, b, c), "children.#", parts, Count(3), parse, upperHex);
  }

  lemma ChildrenCountLookup(first: Bytes, last: Bytes, age: Bytes, a: Bytes, b: Bytes, c: Bytes, parse: Bytes -> real)
    ensures LookupIn(Person(first, last, age, a, b, c), [Part(false, "children"), Part(false, "#")], 0, parse) == Some(Count(3))
  {
    var parts := [Part(false, "children"), Part(false, "#")];
    CountElems(Children(a, b, c), 0, 0, parts, 1, parse);
    FirstMemberBelow(Person(first, last, age, a, b, c), 0, 2, parts, 0, parse, Count(3));
  }

  /** `children.1` gives the second child. */
  lemma ChildrenOne(first: Bytes, last: Bytes, age: Bytes, a: Bytes, b: Bytes, c: Bytes, parse: Bytes -> real, upperHex: bool)
    requires Texts(first, last, age, a, b, c)
    ensures Query(Render(Person(first, last, age, a, b, c)), "children.1", parse, upperHex) == Result(String, [], b, 0.0)
  {
    var parts := [Part(false, "children"), Part(false, "1")];
    var r := Result(String, [], b, 0.0);
    SplitDotted("children", "1");
    assert "children" + "." + "1" == "children.1";
    PersonGood(first, last, age, a, b, c);
    ChildrenOneLookup(first, last, age, a, b, c, parse);
    QueryGives(Person(first, last, age, a, b, c), "children.1", parts, r, parse, upperHex);
  }

  lemma ChildrenOneLookup(first: Bytes, last: Bytes, age: Bytes, a: Bytes, b: Bytes, c: Bytes, parse: Bytes -> real)
    ensures LookupIn(Person(first, last, age, a, b, c), [Part(false, "children"), Part(false, "1")], 0, parse) == Some(Result(String, [], b, 0.0))
  {
    var parts := [Part(false, "children"), Part(false, "1")];
    assert Decimal(0) == "0" && Decimal(1) == "1";
    FirstElem(Children(a, b, c), 0, 1, parts, 1, parse);
    FirstMemberBelow(Person(first, last, age, a, b, c), 0, 2, parts, 0, parse, Result(String, [], b, 0.0));
  }

  /** `child*.2` gives the third child: the wild part selects `children`. */
  lemma ChildStarTwo(first: Bytes, last: Bytes, age: Bytes, a: Bytes, b: Bytes, c: Bytes, parse: Bytes -> real, upperHex: bool)
    requires Texts(first, last, age, a, b, c)
    ensures Query(Render(Person(first, last, age, a, b, c)), "child*.2", parse, upperHex) == Result(String, [], c, 0.0)
  {
    var parts := [Part(true, "child*"), Part(false, "2")];
    var r := Result(String, [], c, 0.0);
    WildPartExample();
    PersonGood(first, last, age, a, b, c);
    ChildStarLookup(first, last, age, a, b, c, parse);
    QueryGives(Person(first, last, age, a, b, c), "child*.2", parts, r, parse, upperHex);
  }

  lemma ChildStarLookup(first: Bytes, last: Bytes, age: Bytes, a: Bytes, b: Bytes, c: Bytes, parse: Bytes -> real)
    ensures LookupIn(Person(first, last, age, a, b, c), [Part(true, "child*"), Part(false, "2")], 0, parse) == Some(Result(String, [], c, 0.0))
  {
    var parts := [Part(true, "child*"), Part(false, "2")];
    StarExample();
    assert Decimal(0) == "0" && Decimal(1) == "1" && Decimal(2) == "2";
    FirstElem(Children(a, b, c), 0, 2, parts, 1, parse);
    FirstMemberBelow(Person(first, last, age, a, b, c), 0, 2, parts, 0, parse, Result(String, [], c, 0.0));
  }

  /** `c?ildren.0` gives the first child. */
  lemma CQuestionZero(first: Bytes, last: Bytes, age: Bytes, a: Bytes, b: Bytes, c: Bytes, parse: Bytes -> real, upperHex: bool)
    requires Texts(first, last, age, a, b, c)
    ensures Query(Render(Person(first, last, age, a, b, c)), "c?ildren.0", parse, upperHex) == Result(String, [], a, 0.0)
  {
    var parts := [Part(true, "c?ildren"), Part(false, "0")];
    var r := Result(String, [], a, 0.0);
    PathCQuestion();
    PersonGood(first, last, age, a, b, c);
    CQuestionLookup(first, last, age, a, b, c, parse);
    QueryGives(Person(first, last, age, a, b, c), "c?ildren.0", parts, r, parse, upperHex);
  }

  lemma CQuestionLookup(first: Bytes, last: Bytes, age: Bytes, a: Bytes, b: Bytes, c: Bytes, parse: Bytes -> real)
    ensures LookupIn(Person(first, last, age, a, b, c), [Part(true, "c?ildren"), Part(false, "0")], 0, parse) == Some(Result(String, [], a, 0.0))
  {
    var parts := [Part(true, "c?ildren"), Part(false, "0")];
    QuestionExample();
    FirstElem(Children(a, b, c), 0, 0, parts, 1, parse);
    FirstMemberBelow(Person(first, last, age, a, b, c), 0, 2, parts, 0, parse, Result(String, [], a, 0.0));
  }

  lemma PathCQuestion()
    ensures Split("c?ildren.0") == Some([Part(true, "c?ildren"), Part(false, "0")])
  {
    var q: Bytes := "c?ildren";
    assert q[1] == '?';
    SplitDotted(q, "0");
    assert q + "." + "0" == "c?ildren.0";
  }

  // ---------------------------------------------------------------------
  // An escaped value: the hex-digit finding seen through `Get`.

  /** `{"a":"\u00C9"}`: one member whose string escapes U+00C9 with
      upper-case hex digits. */
  function UpperDocument(): Bytes
  {
    ['{', '"', 'a', '"', ':', '"', '\\', 'u', '0', '0', 'C', '9', '"', '}']
  }

  /** The string value's bytes: the six-byte escape of U+00C9. */
  function UpperEscape(): Bytes
  {
    ['\\', 'u', '0', '0', 'C', '9']
  }

  /** As written, path `a` answers with an empty string, because `unescape`
      gives up on the digit `C`. */
  lemma UpperEscapeAsWritten(parse: Bytes -> real)
    ensures Query(UpperDocument(), "a", parse, false) == Result(String, [], [], 0.0)
  {
    EscapedValue(parse, false);
    Escapes.UppercaseHexRejectedAsWritten();
    assert UpperEscape() == "\\u00C9";
  }

  /** With the corrected digits it answers with the two UTF-8 bytes of
      U+00C9. */
  lemma UpperEscapeCorrected(parse: Bytes -> real)
    ensures Query(UpperDocument(), "a", parse, true) == Result(String, [], [0xC3 as char, 0x89 as char], 0.0)
  {
    EscapedValue(parse, true);
    Escapes.UppercaseHexUnescaped();
    assert UpperEscape() == "\\u00C9";
  }

  /** Path `a` answers with whatever `unescape` makes of the value's bytes. */
  lemma EscapedValue(parse: Bytes -> real, upperHex: bool)
    ensures Query(UpperDocument(), "a", parse, upperHex)
         == Result(String, [], Escapes.Unescaped(UpperEscape(), upperHex), 0.0)
  {
    var json := UpperDocument();
    var f := Frame('{', 0);
    SplitSingle("a");
    assert Start(json) == Some((f.stype, 1));
    UpperRound(parse, upperHex);
  }

  /** The first round reads the key `a`, matches and answers. */
  lemma UpperRound(parse: Bytes -> real, upperHex: bool)
    ensures Round(UpperDocument(), [Part(false, "a")], parse, upperHex, 1, Frame('{', 0), [Frame('{', 0)])
         == Done(Result(String, [], Escapes.Unescaped(UpperEscape(), upperHex), 0.0))
  {
    var f := Frame('{', 0);
    UpperKey(upperHex);
    assert Matches(Part(false, "a"), "a");
    UpperProceed(parse, upperHex);
  }

  /** After the key: the string value is the answer. */
  lemma UpperProceed(parse: Bytes -> real, upperHex: bool)
    ensures Proceed(UpperDocument(), [Part(false, "a")], parse, upperHex, 4, true, Frame('{', 0), [Frame('{', 0)])
         == Done(Result(String, [], Escapes.Unescaped(UpperEscape(), upperHex), 0.0))
  {
    var t := Token('"', [], 6);
    UpperToken();
    assert !IsBlock(t.vc);
    UpperHit(parse, upperHex);
  }

  lemma UpperHit(parse: Bytes -> real, upperHex: bool)
    ensures Hit(UpperDocument(), parse, upperHex, Token('"', [], 6), 6)
         == Result(String, [], Escapes.Unescaped(UpperEscape(), upperHex), 0.0)
  {
    UpperString(upperHex);
  }

  lemma UpperKey(upperHex: bool)
    ensures KeyAt(UpperDocument(), 1, Frame('{', 0), upperHex) == Some(("a", Frame('{', 0), 4))
  {
    var json := UpperDocument();
    assert Find(json, 1, IsQuote) == 1;
    ReadPlainString(json, 2, "a", json[4..], upperHex);
  }

  lemma UpperToken()
    ensures ScanValue(UpperDocument(), 4) == Some(Token('"', [], 6))
  {
    var json := UpperDocument();
    assert Find(json, 4, StartsValue) == 5;
  }

  lemma UpperString(upperHex: bool)
    ensures ReadStr(UpperDocument(), 6, upperHex) == Some((Escapes.Unescaped(UpperEscape(), upperHex), 13))
  {
    var json := UpperDocument();
    assert Find(json, 6, QuoteOrBackslash) == 6;
    assert QuoteEnd(json, 6, 7) == 12;
    assert json[6..12] == UpperEscape();
  }

  // ---------------------------------------------------------------------
  // Empty containers, which the tree reference leaves out.

  /** `{"a":{},"b":1}`: the object under `a` is empty. */
  function EmptyObjectDocument(): Bytes
  {
    ['{', '"', 'a', '"', ':', '{', '}', ',', '"', 'b', '"', ':', '1', '}']
  }

  /** Inside the empty object the key search steps over its `}` and reads
      the next key of the outer object, so `a.b` answers the `1` of `b`. */
  lemma EmptyObjectReadsOn(parse: Bytes -> real, upperHex: bool)
    ensures Query(EmptyObjectDocument(), "a.b", parse, upperHex) == Result(Number, "1", [], parse("1"))
  {
    var json := EmptyObjectDocument();
    var f := Frame('{', 0);
    SplitDotted("a", "b");
    assert "a" + "." + "b" == "a.b";
    assert Start(json) == Some((f.stype, 1));
    EmptyObjectWalk(parse, upperHex);
  }

  lemma EmptyObjectWalk(parse: Bytes -> real, upperHex: bool)
    ensures Walk(EmptyObjectDocument(), [Part(false, "a"), Part(false, "b")], parse, upperHex, 1, Frame('{', 0), [Frame('{', 0)])
         == Result(Number, "1", [], parse("1"))
  {
    var f := Frame('{', 0);
    EmptyObjectRound(parse, upperHex);
    WalkNext(EmptyObjectDocument(), [Part(false, "a"), Part(false, "b")], parse, upperHex, 1, f, [f], 6, f, [f, f]);
    EmptyObjectInner(parse, upperHex);
  }

  /** The first round matches `a` and descends into `{}`. */
  lemma EmptyObjectRound(parse: Bytes -> real, upperHex: bool)
    ensures Round(EmptyObjectDocument(), [Part(false, "a"), Part(false, "b")], parse, upperHex, 1, Frame('{', 0), [Frame('{', 0)])
         == Next(6, Frame('{', 0), [Frame('{', 0), Frame('{', 0)])
  {
    EmptyObjectKey(upperHex);
    assert Matches(Part(false, "a"), "a");
    EmptyObjectOpen();
  }

  lemma EmptyObjectKey(upperHex: bool)
    ensures KeyAt(EmptyObjectDocument(), 1, Frame('{', 0), upperHex) == Some(("a", Frame('{', 0), 4))
  {
    var json := EmptyObjectDocument();
    assert Find(json, 1, IsQuote) == 1;
    ReadPlainString(json, 2, "a", json[4..], upperHex);
  }

  lemma EmptyObjectOpen()
    ensures ScanValue(EmptyObjectDocument(), 4) == Some(Token('{', [], 6))
  {
    var json := EmptyObjectDocument();
    assert Find(json, 4, StartsValue) == 5;
  }

  /** The second round finds the key `b` after the `}` and answers its value. */
  lemma EmptyObjectInner(parse: Bytes -> real, upperHex: bool)
    ensures Walk(EmptyObjectDocument(), [Part(false, "a"), Part(false, "b")], parse, upperHex, 6, Frame('{', 0), [Frame('{', 0), Frame('{', 0)])
         == Result(Number, "1", [], parse("1"))
  {
    var json := EmptyObjectDocument();
    assert Find(json, 6, IsQuote) == 8;
    ReadPlainString(json, 9, "b", json[11..], upperHex);
    assert KeyAt(json, 6, Frame('{', 0), upperHex) == Some(("b", Frame('{', 0), 11));
    EmptyObjectNumber();
  }

  lemma EmptyObjectNumber()
    ensures ScanValue(EmptyObjectDocument(), 11) == Some(Token('0', "1", 13))
  {
    var json := EmptyObjectDocument();
    assert Find(json, 11, StartsValue) == 12;
    assert Find(json, 13, NumberStop) == 13;
    assert json[12..13] == "1";
  }

  /** In the document `[]` the `]` is read as a word that runs to the end
      of the input, so no close is seen and `#` answers nothing. */
  lemma EmptyArrayDocument(parse: Bytes -> real, upperHex: bool)
    ensures Query("[]", "#", parse, upperHex) == NotFound
  {
    var json: Bytes := "[]";
    var f := Frame('[', 0);
    SplitSingle("#");
    assert Start(json) == Some((f.stype, 1));
    assert Decimal(0) == "0";
    assert KeyAt(json, 1, f, upperHex) == Some(("0", Frame('[', 1), 1));
    assert Find(json, 1, StartsValue) == 1;
    assert Find(json, 2, NotLower) == 2;
    assert json[1..2] == "]";
    assert ScanValue(json, 1) == Some(Token(']', "]", 2));
  }

  /** `{"a":[]}`: the array under `a` is empty. */
  function EmptyArrayMember(): Bytes
  {
    ['{', '"', 'a', '"', ':', '[', ']', '}']
  }

  /** Here the `]` word stops at the `}` after it, and that close answers
      `#` with the frame's count, which the word has already raised to 1. */
  lemma EmptyArrayCountsOne(parse: Bytes -> real, upperHex: bool)
    ensures Query(EmptyArrayMember(), "a.#", parse, upperHex) == Count(1)
  {
    var json := EmptyArrayMember();
    var f := Frame('{', 0);
    SplitDotted("a", "#");
    assert "a" + "." + "#" == "a.#";
    assert Start(json) == Some((f.stype, 1));
    EmptyArrayWalk(parse, upperHex);
  }

  lemma EmptyArrayWalk(parse: Bytes -> real, upperHex: bool)
    ensures Walk(EmptyArrayMember(), [Part(false, "a"), Part(false, "#")], parse, upperHex, 1, Frame('{', 0), [Frame('{', 0)])
         == Count(1)
  {
    var f := Frame('{', 0);
    var c := Frame('[', 0);
    EmptyArrayRound(parse, upperHex);
    WalkNext(EmptyArrayMember(), [Part(false, "a"), Part(false, "#")], parse, upperHex, 1, f, [f], 6, c, [f, c]);
    EmptyArrayInner(parse, upperHex);
  }

  /** The first round matches `a` and descends into `[]`. */
  lemma EmptyArrayRound(parse: Bytes -> real, upperHex: bool)
    ensures Round(EmptyArrayMember(), [Part(false, "a"), Part(false, "#")], parse, upperHex, 1, Frame('{', 0), [Frame('{', 0)])
         == Next(6, Frame('[', 0), [Frame('{', 0), Frame('[', 0)])
  {
    EmptyArrayKey(upperHex);
    assert Matches(Part(false, "a"), "a");
    EmptyArrayOpen();
  }

  lemma EmptyArrayKey(upperHex: bool)
    ensures KeyAt(EmptyArrayMember(), 1, Frame('{', 0), upperHex) == Some(("a", Frame('{', 0), 4))
  {
    var json := EmptyArrayMember();
    assert Find(json, 1, IsQuote) == 1;
    ReadPlainString(json, 2, "a", json[4..], upperHex);
  }

  lemma EmptyArrayOpen()
    ensures ScanValue(EmptyArrayMember(), 4) == Some(Token('[', [], 6))
  {
    var json := EmptyArrayMember();
    assert Find(json, 4, StartsValue) == 5;
  }

  /** The second round keys the `]` word as element `0` and then meets `}`. */
  lemma EmptyArrayInner(parse: Bytes -> real, upperHex: bool)
    ensures Walk(EmptyArrayMember(), [Part(false, "a"), Part(false, "#")], parse, upperHex, 6, Frame('[', 0), [Frame('{', 0), Frame('[', 0)])
         == Count(1)
  {
    var json := EmptyArrayMember();
    var parts := [Part(false, "a"), Part(false, "#")];
    var stack := [Frame('{', 0), Frame('[', 0)];
    assert Decimal(0) == "0";
    assert KeyAt(json, 6, Frame('[', 0), upperHex) == Some(("0", Frame('[', 1), 6));
    assert Find(json, 6, StartsValue) == 6;
    assert Find(json, 7, NotLower) == 7;
    assert json[6..7] == "]";
    assert ScanValue(json, 6) == Some(Token(']', "]", 7));
    assert ToComma(json, parts, 7, Frame('[', 1), stack) == Done(Count(1));
  }
}
