/** `Get(json, path)`: the single forward scan of the input that looks for
    the value a dotted path names.  The scan keeps a frame per level it has
    descended into; in an array frame the keys are the element indexes.
    Each round reads one key, decides whether it matches the path part of
    the current level, reads the value token and then either answers,
    descends, or skips the value and reads on to the next `,` (popping
    frames at closing brackets). */
module Search {
  import opened Text
  import opened Wildcard
  import opened Results
  import opened Paths
  import opened Scanner

  /** `frame`: the value class of the level (`{`, `[`, or the class of a
      scalar that a matched part descended into) and, for arrays, the
      number of element keys produced so far.  The source also keeps the
      last key in the frame; it is never read after being replaced, so the
      model keeps it in the round instead. */
  datatype Frame = Frame(stype: Byte, count: nat)

  /** What a round ends with: an answer, or the state at `read_key`. */
  datatype Outcome = Done(r: Result) | Next(i: nat, f: Frame, stack: seq<Frame>)

  /** The answer to a `#` part: the count of the current frame. */
  function Count(n: nat): (r: Result)
    ensures r.kind == Number && r.raw == [] && r.Exists()
  {
    Result(Number, [], [], n as real)
  }

  /** The search for the first delimiter: the first byte above space must
      open an object or an array.  When every byte is blank the source goes
      on with a zero frame type at the end of the input. */
  function Start(json: Bytes): (r: Option<(Byte, nat)>)
    ensures r.Some? ==> r.value.1 <= |json|
    ensures r.Some? && 0 < r.value.1 < |json| ==> IsBlock(r.value.0) && json[r.value.1 - 1] == r.value.0
  {
    var j := Find(json, 0, NotSpace);
    if j == |json| then Some((0 as char, |json|))
    else if json[j] == '{' then Some(('{', j + 1))
    else if json[j] == '[' then Some(('[', j + 1))
    else None
  }

  /** The key of the round: an array frame produces the decimal index of
      the next element; any other frame reads a quoted key. */
  function KeyAt(json: Bytes, i: nat, f: Frame, upperHex: bool): (r: Option<(Bytes, Frame, nat)>)
    requires i <= |json|
    ensures r.Some? ==> i <= r.value.2 <= |json| + 1
  {
    if f.stype == '[' then Some((Decimal(f.count), Frame(f.stype, f.count + 1), i))
    else match ReadKey(json, i, upperHex)
      case None => None
      case Some((key, next)) => Some((key, f, next))
  }

  /** Does a key match a path part? */
  predicate Matches(part: Part, key: Bytes)
  {
    if part.wild then Glob(key, part.key) else part.key == key
  }

  /** The answer for a matched value at the last level of the path. */
  function Hit(json: Bytes, parse: Bytes -> real, upperHex: bool, t: Token, after: nat): Result
    requires 1 <= t.next <= after <= |json|
  {
    if IsBlock(t.vc) then Result(JSON, json[t.next - 1..after], [], 0.0)
    else if t.vc == 'n' then Result(Null, t.val, [], 0.0)
    else if t.vc == 't' then Result(True, t.val, [], 0.0)
    else if t.vc == 'f' then Result(False, t.val, [], 0.0)
    else if t.vc == '"' then
      Result(String, t.val, match ReadStr(json, t.next, upperHex) case None => [] case Some((str, _)) => str, 0.0)
    else if t.vc == '0' then Result(Number, t.val, [], parse(t.val))
    else Result(Null, t.val, [], 0.0)
  }

  /** Reading on to the next `,` that ends the current value.  A closing
      bracket answers a `#` part with the frame's count; otherwise it leaves
      the level, and leaving the outermost one means the path is not there.
      The frame that becomes current again is the one stored at descent. */
  function ToComma(json: Bytes, parts: seq<Part>, i: nat, f: Frame, stack: seq<Frame>): (o: Outcome)
    requires i <= |json| + 1 && 1 <= |stack| <= |parts|
    ensures o.Next? ==> i < o.i <= |json| && 1 <= |o.stack| <= |parts|
    decreases |json| + 1 - i
  {
    if i >= |json| then Done(NotFound)
    else if json[i] == '}' || json[i] == ']' then
      if parts[|stack| - 1].key == "#" then Done(Count(f.count))
      else if |stack| == 1 then Done(NotFound)
      else
        var st := stack[..|stack| - 1];
        ToComma(json, parts, i + 1, st[|st| - 1], st)
    else if json[i] == ',' then Next(i + 1, f, stack)
    else ToComma(json, parts, i + 1, f, stack)
  }

  /** One round, from `read_key` to the next `goto read_key` or answer. */
  function Round(json: Bytes, parts: seq<Part>, parse: Bytes -> real, upperHex: bool, i: nat, f: Frame, stack: seq<Frame>): (o: Outcome)
    requires i <= |json| && 1 <= |stack| <= |parts|
    ensures o.Next? ==> i < o.i <= |json| && 1 <= |o.stack| <= |parts|
  {
    match KeyAt(json, i, f, upperHex)
    case None => Done(NotFound)
    case Some((key, f1, next)) => Proceed(json, parts, parse, upperHex, next, Matches(parts[|stack| - 1], key), f1, stack)
  }

  /** The rest of a round once the key is known: read the value token;
      answer when the last part matched; descend when an earlier part
      matched; otherwise skip the value (squashing a block, jumping over a
      string) and read on to the comma. */
  function Proceed(json: Bytes, parts: seq<Part>, parse: Bytes -> real, upperHex: bool, next: nat, matched: bool, f1: Frame, stack: seq<Frame>): (o: Outcome)
    requires next <= |json| + 1 && 1 <= |stack| <= |parts|
    ensures o.Next? ==> next < o.i <= |json| && 1 <= |o.stack| <= |parts|
  {
    var depth := |stack|;
    match ScanValue(json, next)
    case None => Done(NotFound)
    case Some(t) =>
      var after := if IsBlock(t.vc) && (!matched || depth == |parts|) then SquashEnd(json, t.next, 1) else t.next;
      if matched && depth == |parts| then Done(Hit(json, parse, upperHex, t, after))
      else if matched then Next(t.next, Frame(t.vc, 0), stack + [Frame(t.vc, 0)])
      else
        var resume := if t.vc == '"' then QuoteEnd(json, t.next, t.next) + 1 else after;
        ToComma(json, parts, resume, f1, stack)
  }

  /** Rounds until one answers. */
  function Walk(json: Bytes, parts: seq<Part>, parse: Bytes -> real, upperHex: bool, i: nat, f: Frame, stack: seq<Frame>): Result
    requires i <= |json| && 1 <= |stack| <= |parts|
    decreases |json| - i
  {
    match Round(json, parts, parse, upperHex, i, f, stack)
    case Done(r) => r
    case Next(i', f', stack') => Walk(json, parts, parse, upperHex, i', f', stack')
  }

  /** The value `Get` returns.  `parse` stands for `strconv.ParseFloat`;
      `upperHex` chooses the hex digits `unescape` accepts in keys and
      string values (`false` is the code as written, `true` the corrected
      digits). */
  function Query(json: Bytes, path: Bytes, parse: Bytes -> real, upperHex: bool): Result
    requires |path| == 0 || Split(path).Some?
  {
    if |path| == 0 then NotFound
    else
      var parts := Split(path).value;
      match Start(json)
      case None => NotFound
      case Some((stype, i)) => Walk(json, parts, parse, upperHex, i, Frame(stype, 0), [Frame(stype, 0)])
  }

  /** The loop that reads to the comma or the end of the level.  The
      source's `depth` is the height of the frame stack. */
  method ReadToComma(json: Bytes, parts: seq<Part>, start: nat, f0: Frame, stack0: seq<Frame>) returns (o: Outcome)
    requires start <= |json| + 1 && 1 <= |stack0| <= |parts|
    ensures o == ToComma(json, parts, start, f0, stack0)
  {
    var i, f, stack := start, f0, stack0;
    while i < |json|
      invariant i <= |json| + 1 && 1 <= |stack| <= |parts|
      invariant ToComma(json, parts, i, f, stack) == ToComma(json, parts, start, f0, stack0)
      decreases |json| - i
    {
      if json[i] == '}' || json[i] == ']' {
        if parts[|stack| - 1].key == "#" {
          return Done(Count(f.count));
        }
        if |stack| == 1 {
          return Done(NotFound);
        }
        stack := stack[..|stack| - 1];
        f := stack[|stack| - 1];
      } else if json[i] == ',' {
        return Next(i + 1, f, stack);
      }
      i := i + 1;
    }
    return Done(NotFound);
  }

  /** `read_key`: an array frame produces the next index, any other frame
      looks for the next quote and reads the key after it. */
  method NextKey(json: Bytes, i: nat, f: Frame, upperHex: bool) returns (k: Option<(Bytes, Frame, nat)>)
    requires i <= |json|
    ensures k == KeyAt(json, i, f, upperHex)
  {
    if f.stype == '[' {
      return Some((Decimal(f.count), f.(count := f.count + 1), i));
    }
    var q := Seek(json, i, IsQuote);
    if q == |json| {
      return None;
    }
    var key := ReadString(json, q + 1, upperHex);
    if key.None? {
      return None;
    }
    return Some((key.value.0, f, key.value.1));
  }

  /** The switch on the value class that builds the answer. */
  method Answer(json: Bytes, parse: Bytes -> real, upperHex: bool, t: Token, after: nat) returns (r: Result)
    requires 1 <= t.next <= after <= |json|
    ensures r == Hit(json, parse, upperHex, t, after)
  {
    r := Result(Null, t.val, [], 0.0);
    if IsBlock(t.vc) {
      r := Result(JSON, json[t.next - 1..after], [], 0.0);
    } else if t.vc == 't' {
      r := r.(kind := True);
    } else if t.vc == 'f' {
      r := r.(kind := False);
    } else if t.vc == '"' {
      var s := ReadString(json, t.next, upperHex);
      r := Result(String, t.val, if s.Some? then s.value.0 else [], 0.0);
    } else if t.vc == '0' {
      r := Result(Number, t.val, [], parse(t.val));
    }
  }

  /** One round of the scan, from `read_key` until the source either
      returns or jumps back to `read_key`. */
  method Step(json: Bytes, parts: seq<Part>, parse: Bytes -> real, upperHex: bool, i: nat, f: Frame, stack: seq<Frame>) returns (o: Outcome)
    requires i <= |json| && 1 <= |stack| <= |parts|
    ensures o == Round(json, parts, parse, upperHex, i, f, stack)
  {
    var k := NextKey(json, i, f, upperHex);
    if k.None? {
      return Done(NotFound);
    }
    var key, f1, next := k.value.0, k.value.1, k.value.2;
    var depth := |stack|;
    var part := parts[depth - 1];
    var matched: bool;
    if part.wild {
      matched := WildcardMatch(key, part.key);
    } else {
      matched := part.key == key;
    }
    o := ProceedFrom(json, parts, parse, upperHex, next, matched, f1, stack);
  }

  /** The rest of a round of `Get` once the key is read and compared. */
  method ProceedFrom(json: Bytes, parts: seq<Part>, parse: Bytes -> real, upperHex: bool, next: nat, matched: bool, f1: Frame, stack: seq<Frame>)
    returns (o: Outcome)
    requires next <= |json| + 1 && 1 <= |stack| <= |parts|
    ensures o == Proceed(json, parts, parse, upperHex, next, matched, f1, stack)
  {
    var depth := |stack|;
    // read to the value token
    var token := Scan(json, next);
    if token.None? {
      return Done(NotFound);
    }
    var t := token.value;
    var after := t.next;
    if IsBlock(t.vc) && (!matched || depth == |parts|) {
      after := Squash(json, t.next);
    }
    if matched && depth == |parts| {
      var r := Answer(json, parse, upperHex, t, after);
      return Done(r);
    } else if matched {
      // descend: the new frame starts its count at zero
      return Next(t.next, Frame(t.vc, 0), stack + [Frame(t.vc, 0)]);
    }
    var resume := after;
    if t.vc == '"' {
      var e := FindQuote(json, t.next, t.next);
      resume := e + 1;
    }
    o := ReadToComma(json, parts, resume, f1, stack);
  }

  /** `Get`: splits the path, finds the first delimiter and then runs
      rounds until one answers. */
  method Get(json: Bytes, path: Bytes, parse: Bytes -> real, upperHex: bool) returns (r: Result)
    requires |path| == 0 || Split(path).Some?
    ensures r == Query(json, path, parse, upperHex)
  {
    if |path| == 0 {
      return NotFound;
    }
    var parts := SplitPath(path);
    var i := Seek(json, 0, NotSpace);
    var stype: Byte := 0 as char;
    if i < |json| {
      if json[i] == '{' {
        stype := '{';
      } else if json[i] == '[' {
        stype := '[';
      } else {
        return NotFound;
      }
      i := i + 1;
    }
    QueryStarts(json, path, parse, upperHex, parts, stype, i);
    r := Rounds(json, parts, parse, upperHex, i, Frame(stype, 0), [Frame(stype, 0)]);
  }

  /** `Query` is the walk from the first delimiter. */
  lemma QueryStarts(json: Bytes, path: Bytes, parse: Bytes -> real, upperHex: bool, parts: seq<Part>, stype: Byte, i: nat)
    requires |path| > 0 && Split(path) == Some(parts) && Start(json) == Some((stype, i))
    ensures 1 <= |parts| && i <= |json|
    ensures Query(json, path, parse, upperHex) == Walk(json, parts, parse, upperHex, i, Frame(stype, 0), [Frame(stype, 0)])
  {
  }

  /** The round loop of `Get`: one `Step` per round until one answers. */
  method Rounds(json: Bytes, parts: seq<Part>, parse: Bytes -> real, upperHex: bool, i0: nat, f0: Frame, stack0: seq<Frame>) returns (r: Result)
    requires i0 <= |json| && 1 <= |stack0| <= |parts|
    ensures r == Walk(json, parts, parse, upperHex, i0, f0, stack0)
  {
    var i, f, stack := i0, f0, stack0;
    while true
      invariant i <= |json| && 1 <= |stack| <= |parts|
      invariant Walk(json, parts, parse, upperHex, i, f, stack) == Walk(json, parts, parse, upperHex, i0, f0, stack0)
      decreases |json| - i
    {
      var o := Step(json, parts, parse, upperHex, i, f, stack);
      if o.Done? {
        return o.r;
      }
      i, f, stack := o.i, o.f, o.stack;
    }
  }
}
