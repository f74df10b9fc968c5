/** What every answer of `Get` looks like, and the inputs on which it
    finds nothing. */
module Shapes {
  import opened Text
  import opened Results
  import opened Paths
  import opened Scanner
  import opened Search

  /** `raw` occurs in `json` at index `a`. */
  predicate SliceAt(raw: Bytes, json: Bytes, a: nat)
  {
    a + |raw| <= |json| && json[a..a + |raw|] == raw
  }

  /** The count of a `#` part: a Number with no raw text. */
  predicate IsCount(r: Result)
  {
    r.kind == Number && r.raw == [] && r.str == [] && r.num.Floor >= 0 && r.num == r.num.Floor as real
  }

  /** A string: its bytes in `str`, an empty `raw`. */
  predicate IsString(r: Result)
  {
    r.kind == String && r.raw == [] && r.num == 0.0
  }

  /** A number: its text taken from the input, and the parsed text as `num`. */
  ghost predicate IsNumber(json: Bytes, parse: Bytes -> real, r: Result)
  {
    r.kind == Number && r.raw != [] && r.str == [] && r.num == parse(r.raw)
    && exists a: nat :: SliceAt(r.raw, json, a)
  }

  /** `true`, `false`, `null` or another word from the input, starting with
      `t`, `f` or some other byte from `]` to `t`. */
  ghost predicate IsWord(json: Bytes, r: Result)
  {
    r.kind in {True, False, Null} && r.raw != [] && r.str == [] && r.num == 0.0
    && (r.kind == True <==> r.raw[0] == 't') && (r.kind == False <==> r.raw[0] == 'f')
    && ']' <= r.raw[0] < 'u'
    && exists a: nat :: SliceAt(r.raw, json, a)
  }

  /** A block: its text from the input, from the opening byte either to a
      closing bracket or to the end of the input. */
  ghost predicate IsBlockText(json: Bytes, r: Result)
  {
    r.kind == JSON && r.raw != [] && r.str == [] && r.num == 0.0
    && (r.raw[0] == '[' || r.raw[0] == '\\' || r.raw[0] >= 'u')
    && exists a: nat :: SliceAt(r.raw, json, a)
        && (a + |r.raw| == |json| || (|r.raw| >= 2 && (r.raw[|r.raw| - 1] == '}' || r.raw[|r.raw| - 1] == ']')))
  }

  /** The answers `Get` can give. */
  ghost predicate Shaped(json: Bytes, parse: Bytes -> real, r: Result)
  {
    r == NotFound || IsCount(r) || IsString(r) || IsNumber(json, parse, r) || IsWord(json, r) || IsBlockText(json, r)
  }

  lemma BlockText(json: Bytes, a: nat, after: nat)
    requires a < after <= |json|
    requires json[a] == '[' || json[a] == '\\' || json[a] >= 'u'
    requires after == |json| || (a + 1 < after && (json[after - 1] == '}' || json[after - 1] == ']'))
    ensures IsBlockText(json, Result(JSON, json[a..after], [], 0.0))
  {
    var raw := json[a..after];
    assert raw[0] == json[a] && raw[|raw| - 1] == json[after - 1];
    assert SliceAt(raw, json, a);
  }

  lemma BlockHitShaped(json: Bytes, parse: Bytes -> real, upperHex: bool, t: Token)
    requires 1 <= t.next <= |json| && IsBlock(t.vc)
    requires json[t.next - 1] == '[' || json[t.next - 1] == '\\' || json[t.next - 1] >= 'u'
    ensures IsBlockText(json, Hit(json, parse, upperHex, t, SquashEnd(json, t.next, 1)))
  {
    var after := SquashEnd(json, t.next, 1);
    SquashEndCloses(json, t.next, 1);
    assert Hit(json, parse, upperHex, t, after) == Result(JSON, json[t.next - 1..after], [], 0.0);
    BlockText(json, t.next - 1, after);
  }

  lemma ScalarHitShaped(json: Bytes, parse: Bytes -> real, upperHex: bool, t: Token, i: nat)
    requires i <= |json| + 1 && ScanValue(json, i) == Some(t) && !IsBlock(t.vc)
    ensures Shaped(json, parse, Hit(json, parse, upperHex, t, t.next))
  {
    var r := Hit(json, parse, upperHex, t, t.next);
    if t.vc == '"' {
      assert IsString(r);
    } else if t.vc == '0' {
      assert SliceAt(r.raw, json, t.next - |t.val|);
      assert IsNumber(json, parse, r);
    } else {
      assert SliceAt(r.raw, json, t.next - |t.val|);
      assert IsWord(json, r);
    }
  }

  lemma HitShaped(json: Bytes, parse: Bytes -> real, upperHex: bool, t: Token, after: nat, i: nat)
    requires i <= |json| + 1 && ScanValue(json, i) == Some(t)
    requires after == (if IsBlock(t.vc) then SquashEnd(json, t.next, 1) else t.next)
    ensures Shaped(json, parse, Hit(json, parse, upperHex, t, after))
  {
    if IsBlock(t.vc) {
      BlockHitShaped(json, parse, upperHex, t);
    } else {
      ScalarHitShaped(json, parse, upperHex, t, i);
    }
  }

  lemma {:induction false} ToCommaShaped(json: Bytes, parts: seq<Part>, parse: Bytes -> real, i: nat, f: Frame, stack: seq<Frame>)
    requires i <= |json| + 1 && 1 <= |stack| <= |parts|
    requires ToComma(json, parts, i, f, stack).Done?
    ensures Shaped(json, parse, ToComma(json, parts, i, f, stack).r)
    decreases |json| + 1 - i
  {
    if i >= |json| {
    } else if json[i] == '}' || json[i] == ']' {
      if parts[|stack| - 1].key != "#" && |stack| > 1 {
        var st := stack[..|stack| - 1];
        ToCommaShaped(json, parts, parse, i + 1, st[|st| - 1], st);
      }
    } else if json[i] != ',' {
      ToCommaShaped(json, parts, parse, i + 1, f, stack);
    }
  }

  lemma RoundShaped(json: Bytes, parts: seq<Part>, parse: Bytes -> real, upperHex: bool, i: nat, f: Frame, stack: seq<Frame>)
    requires i <= |json| && 1 <= |stack| <= |parts|
    requires Round(json, parts, parse, upperHex, i, f, stack).Done?
    ensures Shaped(json, parse, Round(json, parts, parse, upperHex, i, f, stack).r)
  {
    match KeyAt(json, i, f, upperHex)
    case None =>
    case Some((key, f1, next)) =>
      var depth := |stack|;
      var matched := Matches(parts[depth - 1], key);
      match ScanValue(json, next)
      case None =>
      case Some(t) =>
        var after := if IsBlock(t.vc) && (!matched || depth == |parts|) then SquashEnd(json, t.next, 1) else t.next;
        if matched && depth == |parts| {
          HitShaped(json, parse, upperHex, t, after, next);
        } else if !matched {
          var resume := if t.vc == '"' then QuoteEnd(json, t.next, t.next) + 1 else after;
          ToCommaShaped(json, parts, parse, resume, f1, stack);
        }
  }

  lemma {:induction false} WalkShaped(json: Bytes, parts: seq<Part>, parse: Bytes -> real, upperHex: bool, i: nat, f: Frame, stack: seq<Frame>)
    requires i <= |json| && 1 <= |stack| <= |parts|
    ensures Shaped(json, parse, Walk(json, parts, parse, upperHex, i, f, stack))
    decreases |json| - i
  {
    match Round(json, parts, parse, upperHex, i, f, stack)
    case Done(r) => RoundShaped(json, parts, parse, upperHex, i, f, stack);
    case Next(i', f', stack') => WalkShaped(json, parts, parse, upperHex, i', f', stack');
  }

  /** Every answer of `Get` has one of the shapes above. */
  lemma QueryShaped(json: Bytes, path: Bytes, parse: Bytes -> real, upperHex: bool)
    requires |path| == 0 || Split(path).Some?
    ensures Shaped(json, parse, Query(json, path, parse, upperHex))
  {
    if |path| > 0 {
      var parts := Split(path).value;
      match Start(json)
      case None =>
      case Some((stype, i)) => WalkShaped(json, parts, parse, upperHex, i, Frame(stype, 0), [Frame(stype, 0)]);
    }
  }

  /** `Exists()` tells a found value from nothing: a found `null` has its
      text as raw, and a found empty string has type String. */
  lemma FoundIffExists(json: Bytes, path: Bytes, parse: Bytes -> real, upperHex: bool)
    requires |path| == 0 || Split(path).Some?
    ensures Query(json, path, parse, upperHex).Exists() <==> Query(json, path, parse, upperHex) != NotFound
  {
    QueryShaped(json, path, parse, upperHex);
  }

  // ---------------------------------------------------------------------
  // Nothing found.

  lemma EmptyPath(json: Bytes, parse: Bytes -> real, upperHex: bool)
    ensures Query(json, [], parse, upperHex) == NotFound
  {
  }

  /** A document whose first byte above space opens neither an object nor
      an array has nothing to find. */
  lemma NotAContainer(json: Bytes, path: Bytes, parse: Bytes -> real, upperHex: bool, j: nat)
    requires |path| == 0 || Split(path).Some?
    requires j < |json| && json[j] > ' ' && json[j] != '{' && json[j] != '['
    requires forall k :: 0 <= k < j ==> json[k] <= ' '
    ensures Query(json, path, parse, upperHex) == NotFound
  {
    FindSkip(json, 0, j, NotSpace);
  }

  /** Neither has a blank document. */
  lemma BlankDocument(json: Bytes, path: Bytes, parse: Bytes -> real, upperHex: bool)
    requires |path| == 0 || Split(path).Some?
    requires forall k :: 0 <= k < |json| ==> json[k] <= ' '
    ensures Query(json, path, parse, upperHex) == NotFound
  {
    FindSkip(json, 0, |json|, NotSpace);
    if |path| > 0 {
      var parts := Split(path).value;
      assert Start(json) == Some((0 as char, |json|));
      assert Round(json, parts, parse, upperHex, |json|, Frame(0 as char, 0), [Frame(0 as char, 0)]) == Done(NotFound);
    }
  }

  /** A document that ends after a key, before its value, has nothing to
      find, even when the key matches. */
  lemma EndsBeforeValue(json: Bytes, parts: seq<Part>, parse: Bytes -> real, upperHex: bool, i: nat, f: Frame, stack: seq<Frame>)
    requires i <= |json| && 1 <= |stack| <= |parts|
    requires KeyAt(json, i, f, upperHex).Some?
    requires forall k :: KeyAt(json, i, f, upperHex).value.2 <= k < |json| ==> Ignored(json[k])
    ensures Walk(json, parts, parse, upperHex, i, f, stack) == NotFound
  {
    var next := KeyAt(json, i, f, upperHex).value.2;
    if next < |json| {
      FindSkip(json, next, |json|, StartsValue);
    }
  }
}
