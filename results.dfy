/** The value `Get` hands back, and the accessors defined on it: `String`,
    `Exists`, `Value` and the ordering `Less`. */
module Results {
  import opened Text

  /** The JSON types, in the order of their byte values (the constants are
      declared with `iota`). */
  datatype Type = Null | False | Number | String | True | JSON
  {
    function Rank(): (n: nat)
      ensures n < 6
    {
      match this
      case Null => 0
      case False => 1
      case Number => 2
      case String => 3
      case True => 4
      case JSON => 5
    }
  }

  /** What `Value()` returns in place of Go's `interface{}`. */
  datatype Value = Nil | Bool(b: bool) | Float(x: real) | Str(s: Bytes)

  /** `kind` is the source's `Type` field, `raw` its `Raw`, `str` its `Str`
      and `num` its `Num` (a float64 there, a real here). */
  datatype Result = Result(kind: Type, raw: Bytes, str: Bytes, num: real)
  {
    /** `Exists()`: a result is there unless it is the zero value's type
        with nothing raw, so a found `null` literal still exists. */
    predicate Exists()
    {
      kind != Null || |raw| != 0
    }

    /** `String()`; the text of a number comes from `format`, the source's
        `strconv.FormatFloat(num, 'f', -1, 64)`. */
    function String(format: real -> Bytes): Bytes
    {
      match kind
      case False => "false"
      case Number => format(num)
      case String => str
      case JSON => raw
      case True => "true"
      case Null => "null"
    }

    function Value(): Value
    {
      match kind
      case False => Bool(false)
      case Number => Float(num)
      case String => Str(str)
      case JSON => Str(raw)
      case True => Bool(true)
      case Null => Nil
    }

    /** `Less(token, caseSensitive)`: first by type, then strings by `str`
        (optionally ignoring ASCII case), numbers by `num`, everything else
        by `raw`. */
    predicate Less(token: Result, caseSensitive: bool)
    {
      if kind.Rank() < token.kind.Rank() then true
      else if kind.Rank() > token.kind.Rank() then false
      else if kind.String? then
        if caseSensitive then LexLess(str, token.str) else FoldedLess(str, token.str)
      else if kind.Number? then num < token.num
      else LexLess(raw, token.raw)
    }
  }

  /** The zero `Result{}`: what `Get` returns when nothing is found. */
  const NotFound := Result(Null, [], [], 0.0)

  /** Order on ASCII-lower-cased strings: what `stringLessInsensitive`
      computes. */
  predicate FoldedLess(a: Bytes, b: Bytes)
  {
    LexLess(LowerAll(a), LowerAll(b))
  }

  /** `stringLessInsensitive`: walks both strings in step, lower-casing
      whichever byte is an upper-case letter, and decides at the first
      difference; a proper prefix sorts first. */
  method StringLessInsensitive(a: Bytes, b: Bytes) returns (r: bool)
    ensures r == FoldedLess(a, b)
  {
    var i := 0;
    while i < |a| && i < |b|
      invariant 0 <= i <= |a| && 0 <= i <= |b|
      invariant LowerAll(a)[..i] == LowerAll(b)[..i]
    {
      if IsUpper(a[i]) {
        if IsUpper(b[i]) {
          // both are upper case: comparing them is comparing their lower case
          if a[i] < b[i] {
            FoldedLessAt(a, b, i);
            return true;
          } else if a[i] > b[i] {
            FoldedLessAt(a, b, i);
            return false;
          }
        } else {
          if a[i] as int + 32 < b[i] as int {
            FoldedLessAt(a, b, i);
            return true;
          } else if a[i] as int + 32 > b[i] as int {
            FoldedLessAt(a, b, i);
            return false;
          }
        }
      } else if IsUpper(b[i]) {
        if a[i] as int < b[i] as int + 32 {
          FoldedLessAt(a, b, i);
          return true;
        } else if a[i] as int > b[i] as int + 32 {
          FoldedLessAt(a, b, i);
          return false;
        }
      } else {
        if a[i] < b[i] {
          FoldedLessAt(a, b, i);
          return true;
        } else if a[i] > b[i] {
          FoldedLessAt(a, b, i);
          return false;
        }
      }
      SamePrefixGrows(LowerAll(a), LowerAll(b), i);
      i := i + 1;
    }
    FoldedLessAtEnd(a, b, i);
    return |a| < |b|;
  }

  lemma SamePrefixGrows(x: Bytes, y: Bytes, i: nat)
    requires i < |x| && i < |y| && x[..i] == y[..i] && x[i] == y[i]
    ensures x[..i + 1] == y[..i + 1]
  {
    assert x[..i + 1] == x[..i] + [x[i]] && y[..i + 1] == y[..i] + [y[i]];
  }

  /** Past a common folded prefix, the first folded difference decides. */
  lemma FoldedLessAt(a: Bytes, b: Bytes, i: nat)
    requires i < |a| && i < |b| && LowerAll(a)[..i] == LowerAll(b)[..i]
    requires Lower(a[i]) != Lower(b[i])
    ensures FoldedLess(a, b) == (Lower(a[i]) < Lower(b[i]))
  {
    var la, lb := LowerAll(a), LowerAll(b);
    LexLessAtFirstDifference(la, lb, i);
    assert la[i..][0] == la[i] && lb[i..][0] == lb[i];
  }

  /** When one folded string is a prefix of the other, length decides. */
  lemma FoldedLessAtEnd(a: Bytes, b: Bytes, i: nat)
    requires i <= |a| && i <= |b| && (i == |a| || i == |b|)
    requires LowerAll(a)[..i] == LowerAll(b)[..i]
    ensures FoldedLess(a, b) == (|a| < |b|)
  {
    var la, lb := LowerAll(a), LowerAll(b);
    LexLessAtFirstDifference(la, lb, i);
    assert i == |a| ==> la[i..] == [];
    assert i == |b| ==> lb[i..] == [];
  }

  /** Values of different types are ordered by type alone:
      Null < False < Number < String < True < JSON. */
  lemma LessOrdersTypes(t: Result, u: Result, caseSensitive: bool)
    requires t.kind != u.kind
    ensures t.Less(u, caseSensitive) <==> t.kind.Rank() < u.kind.Rank()
  {
  }

  lemma LessIrreflexive(t: Result, caseSensitive: bool)
    ensures !t.Less(t, caseSensitive)
  {
    LexLessIrreflexive(t.str);
    LexLessIrreflexive(LowerAll(t.str));
    LexLessIrreflexive(t.raw);
  }

  lemma LessAsymmetric(t: Result, u: Result, caseSensitive: bool)
    requires t.Less(u, caseSensitive)
    ensures !u.Less(t, caseSensitive)
  {
    if t.kind == u.kind {
      if t.kind == String {
        if caseSensitive {
          LexLessAsymmetric(t.str, u.str);
        } else {
          LexLessAsymmetric(LowerAll(t.str), LowerAll(u.str));
        }
      } else if t.kind != Number {
        LexLessAsymmetric(t.raw, u.raw);
      }
    }
  }

  lemma LessTransitive(t: Result, u: Result, v: Result, caseSensitive: bool)
    requires t.Less(u, caseSensitive) && u.Less(v, caseSensitive)
    ensures t.Less(v, caseSensitive)
  {
    if t.kind == u.kind == v.kind {
      if t.kind == String {
        if caseSensitive {
          LexLessTransitive(t.str, u.str, v.str);
        } else {
          LexLessTransitive(LowerAll(t.str), LowerAll(u.str), LowerAll(v.str));
        }
      } else if t.kind != Number {
        LexLessTransitive(t.raw, u.raw, v.raw);
      }
    }
  }

  /** Case-sensitive comparison is a total order on strings: of two
      different string results one is less than the other. */
  lemma CaseSensitiveStringsTotal(a: Bytes, b: Bytes)
    requires a != b
    ensures Result(String, [], a, 0.0).Less(Result(String, [], b, 0.0), true)
         || Result(String, [], b, 0.0).Less(Result(String, [], a, 0.0), true)
  {
    LexLessTotal(a, b);
  }

  /** `String()` and `Value()` describe a result the same way. */
  lemma StringAgreesWithValue(t: Result, format: real -> Bytes)
    ensures t.Value() == Nil <==> t.kind == Null
    ensures t.Value() == Nil ==> t.String(format) == "null"
    ensures t.Value().Bool? ==> t.String(format) == if t.Value().b then "true" else "false"
    ensures t.Value().Float? ==> t.String(format) == format(t.Value().x)
    ensures t.Value().Str? ==> t.String(format) == t.Value().s
  {
  }

  /** The type-order cases of the unit test of `Less`. */
  lemma LessTypeExamples()
    ensures !Result(Null, [], [], 0.0).Less(Result(Null, [], [], 0.0), true)
    ensures Result(Null, [], [], 0.0).Less(Result(False, [], [], 0.0), true)
    ensures Result(Null, [], [], 0.0).Less(Result(True, [], [], 0.0), true)
    ensures Result(Null, [], [], 0.0).Less(Result(JSON, [], [], 0.0), true)
    ensures Result(Null, [], [], 0.0).Less(Result(Number, [], [], 0.0), true)
    ensures Result(Null, [], [], 0.0).Less(Result(String, [], [], 0.0), true)
    ensures !Result(False, [], [], 0.0).Less(Result(Null, [], [], 0.0), true)
    ensures Result(False, [], [], 0.0).Less(Result(True, [], [], 0.0), true)
    ensures Result(Number, [], [], 123.0).Less(Result(Number, [], [], 456.0), true)
    ensures !Result(Number, [], [], 456.0).Less(Result(Number, [], [], 123.0), true)
    ensures !Result(Number, [], [], 456.0).Less(Result(Number, [], [], 456.0), true)
  {
  }

  /** The string cases of the unit test of `Less`: upper case sorts before
      lower case when case matters, and the two are equal when it does not. */
  lemma LessStringExamples()
    ensures Result(String, [], "abc", 0.0).Less(Result(String, [], "bcd", 0.0), true)
    ensures Result(String, [], "ABC", 0.0).Less(Result(String, [], "abc", 0.0), true)
    ensures !Result(String, [], "ABC", 0.0).Less(Result(String, [], "abc", 0.0), false)
  {
    assert LowerAll("ABC") == "abc";
    LexLessIrreflexive("abc");
  }

  /** The first byte whose folded forms differ decides the folded order. */
  lemma FoldedFirstDifference(a: Bytes, b: Bytes, i: nat)
    requires i < |a| && i < |b|
    requires forall j :: 0 <= j < i ==> Lower(a[j]) == Lower(b[j])
    requires Lower(a[i]) != Lower(b[i])
    ensures FoldedLess(a, b) == (Lower(a[i]) < Lower(b[i]))
  {
    assert LowerAll(a)[..i] == LowerAll(b)[..i];
    FoldedLessAt(a, b, i);
  }

  /** Strings equal once folded are ordered neither way. */
  lemma FoldedSame(a: Bytes, b: Bytes)
    requires |a| == |b|
    requires forall j :: 0 <= j < |a| ==> Lower(a[j]) == Lower(b[j])
    ensures !FoldedLess(a, b) && !FoldedLess(b, a)
  {
    assert LowerAll(a) == LowerAll(b);
    LexLessIrreflexive(LowerAll(a));
  }

  /** The cases of the unit test of `stringLessInsensitive` whose strings
      differ in their first letter. */
  lemma FoldedLessFirstLetterExamples()
    ensures FoldedLess("abcde", "BBCDE") && FoldedLess("Abcde", "bBCDE")
    ensures !FoldedLess("bbcde", "aBCDE") && !FoldedLess("Bbcde", "ABCDE")
  {
    FoldedFirstDifference("abcde", "BBCDE", 0);
    FoldedFirstDifference("Abcde", "bBCDE", 0);
    FoldedFirstDifference("bbcde", "aBCDE", 0);
    FoldedFirstDifference("Bbcde", "ABCDE", 0);
  }

  /** Strings equal once folded: "abcde" and "ABCDE" sort neither way. */
  lemma FoldedLessCaseOnly()
    ensures !FoldedLess("abcde", "ABCDE")
  {
    FoldedSame("abcde", "ABCDE");
  }

  /** A string does not sort before itself. */
  lemma FoldedLessSelf()
    ensures !FoldedLess("ABCDE", "ABCDE")
  {
    FoldedSame("ABCDE", "ABCDE");
  }

  /** Strings equal once folded, after a common digit prefix. */
  lemma FoldedLessDigitPrefix()
    ensures !FoldedLess("123abcde", "123Abcde") && !FoldedLess("123Abcde", "123abcde")
  {
    FoldedSame("123abcde", "123Abcde");
  }

  /** A case that differs in a digit: "124Abcde" sorts after "123abcde". */
  lemma FoldedLessDigitAbove()
    ensures !FoldedLess("124Abcde", "123abcde")
  {
    FoldedFirstDifference("124Abcde", "123abcde", 2);
  }

  /** A case that differs in a digit: "124Abcde" sorts before "125abcde". */
  lemma FoldedLessDigitBelow()
    ensures FoldedLess("124Abcde", "125abcde")
  {
    FoldedFirstDifference("124Abcde", "125abcde", 2);
  }
}
