/** The lexical steps of `Get`: seeking a class of bytes, finding the quote
    that closes a string, reading a key or a string value, recognising the
    next value token, skipping a nested block ("squashing") and the decimal
    keys of array elements.  Each step is a function that states what the
    source computes and, where the source runs a loop, a method that runs
    the loop and is proved equal to that function. */
module Scanner {
  import opened Text
  import Escapes

  // ---------------------------------------------------------------------
  // Byte classes.

  predicate IsQuote(c: Byte) { c == '"' }

  predicate QuoteOrBackslash(c: Byte) { c == '"' || c == '\\' }

  predicate NotSpace(c: Byte) { c > ' ' }

  /** Bytes that the value scan steps over: control bytes, space, `!` and `:`. */
  predicate Ignored(c: Byte) { c < '"' || c == ':' }

  predicate StartsValue(c: Byte) { !Ignored(c) }

  /** The bytes that end a number token. */
  predicate NumberStop(c: Byte)
  {
    c == ' ' || c == '\t' || c == '\r' || c == '\n' || c == ',' || c == ']' || c == '}'
  }

  predicate NotLower(c: Byte) { c < 'a' || c > 'z' }

  // ---------------------------------------------------------------------
  // Seeking.

  /** The first index from `k` on whose byte satisfies `p`, or the length
      of `json` when there is none. */
  function Find(json: Bytes, k: nat, p: Byte -> bool): (e: nat)
    requires k <= |json|
    ensures k <= e <= |json|
    ensures e < |json| ==> p(json[e])
    decreases |json| - k
  {
    if k == |json| then k else if p(json[k]) then k else Find(json, k + 1, p)
  }

  /** No byte before the one `Find` stops at satisfies `p`. */
  lemma {:induction false} FindIsFirst(json: Bytes, k: nat, p: Byte -> bool)
    requires k <= |json|
    ensures forall j :: k <= j < Find(json, k, p) ==> !p(json[j])
    decreases |json| - k
  {
    if k < |json| && !p(json[k]) {
      FindIsFirst(json, k + 1, p);
    }
  }

  /** The source's `for ; i < len(json); i++ { if <p> { break } }`. */
  method Seek(json: Bytes, k: nat, p: Byte -> bool) returns (e: nat)
    requires k <= |json|
    ensures e == Find(json, k, p)
  {
    e := k;
    while e < |json| && !p(json[e])
      invariant k <= e <= |json|
      invariant Find(json, e, p) == Find(json, k, p)
    {
      e := e + 1;
    }
  }

  /** Seeking is unaffected by what follows the byte it stops at. */
  lemma {:induction false} FindPrefix(json: Bytes, rest: Bytes, k: nat, p: Byte -> bool)
    requires k <= |json| && Find(json, k, p) < |json|
    ensures Find(json + rest, k, p) == Find(json, k, p)
    decreases |json| - k
  {
    assert (json + rest)[k] == json[k];
    if !p(json[k]) {
      FindPrefix(json, rest, k + 1, p);
    }
  }

  /** Seeking past a run of bytes that fail `p`. */
  lemma {:induction false} FindSkip(json: Bytes, k: nat, m: nat, p: Byte -> bool)
    requires k <= m <= |json|
    requires forall j :: k <= j < m ==> !p(json[j])
    ensures Find(json, k, p) == Find(json, m, p)
    decreases m - k
  {
    if k < m {
      FindSkip(json, k + 1, m, p);
    }
  }

  // ---------------------------------------------------------------------
  // Closing quotes.

  /** The number of consecutive `\` bytes that end just before index `e`,
      counting no further back than index `s`. */
  function Run(json: Bytes, s: nat, e: nat): (n: nat)
    requires e <= |json|
    ensures n <= e
    ensures forall j :: e - n <= j < e ==> json[j] == '\\'
    decreases e
  {
    if e <= s then 0 else if json[e - 1] == '\\' then 1 + Run(json, s, e - 1) else 0
  }

  /** The test the source makes at a `"` inside a string that began at `s`:
      if the byte before it is a `\`, count the backslashes before that one
      (down to `s`); an odd count means that backslash is itself escaped. */
  predicate Closes(json: Bytes, s: nat, i: nat)
    requires 1 <= i < |json|
  {
    json[i] == '"' && (json[i - 1] != '\\' || Run(json, s, i - 1) % 2 == 1)
  }

  /** What the test means: a `"` closes the string exactly when it is
      preceded by an even number of backslashes. */
  lemma ClosesIffEvenBackslashes(json: Bytes, s: nat, i: nat)
    requires 1 <= i < |json| && (s < i || json[i - 1] != '\\')
    ensures Closes(json, s, i) <==> json[i] == '"' && Run(json, s, i) % 2 == 0
  {
  }

  /** The first closing quote at or after `k` in a string that began at
      `s`, or the length of `json` when the string is unterminated. */
  function QuoteEnd(json: Bytes, s: nat, k: nat): (e: nat)
    requires 1 <= k <= |json|
    ensures k <= e <= |json|
    ensures e < |json| ==> Closes(json, s, e)
    decreases |json| - k
  {
    if k == |json| then k else if Closes(json, s, k) then k else QuoteEnd(json, s, k + 1)
  }

  /** No quote before the one `QuoteEnd` stops at closes the string. */
  lemma {:induction false} QuoteEndIsFirst(json: Bytes, s: nat, k: nat)
    requires 1 <= k <= |json|
    ensures forall j :: k <= j < QuoteEnd(json, s, k) ==> !Closes(json, s, j)
    decreases |json| - k
  {
    if k < |json| && !Closes(json, s, k) {
      QuoteEndIsFirst(json, s, k + 1);
    }
  }

  /** Counting the backslashes before `json[i - 1]`: the source's inner
      `for j := i - 2; j > s-1; j--` loop. */
  method CountBackslashes(json: Bytes, s: nat, i: nat) returns (n: nat)
    requires 1 <= i <= |json|
    ensures n == Run(json, s, i - 1)
  {
    n := 0;
    var j: int := i - 2;
    while j > s - 1 && json[j] == '\\'
      invariant s - 1 <= j <= i - 2 || (j == i - 2 && j < s)
      invariant n == i - 2 - j
      invariant Run(json, s, i - 1) == n + Run(json, s, j + 1)
      decreases j
    {
      n := n + 1;
      j := j - 1;
    }
  }

  /** The escape-aware quote loop of the source. */
  method FindQuote(json: Bytes, s: nat, k: nat) returns (e: nat)
    requires 1 <= k <= |json|
    ensures e == QuoteEnd(json, s, k)
  {
    e := k;
    while e < |json|
      invariant k <= e <= |json|
      invariant QuoteEnd(json, s, e) == QuoteEnd(json, s, k)
    {
      if json[e] == '"' {
        if json[e - 1] == '\\' {
          var n := CountBackslashes(json, s, e);
          if n % 2 == 0 {
            e := e + 1;
            continue;
          }
        }
        return;
      }
      e := e + 1;
    }
  }

  // ---------------------------------------------------------------------
  // Strings and keys.

  /** The source's `readstr`, entered just after an opening quote at
      `s - 1`: the bytes up to the first `"` when no `\` comes before it;
      otherwise the unescaped bytes up to the closing quote (`upperHex`
      chooses the hex digits `unescape` accepts; the code as written is
      `false`).  The second
      component is the index after the closing quote (one past the end of
      `json` when the string is unterminated).  `None` when neither byte
      occurs. */
  function ReadStr(json: Bytes, s: nat, upperHex: bool): (r: Option<(Bytes, nat)>)
    requires 1 <= s <= |json|
    ensures r.Some? ==> s < r.value.1 <= |json| + 1
  {
    var q := Find(json, s, QuoteOrBackslash);
    if q == |json| then None
    else if json[q] == '"' then Some((json[s..q], q + 1))
    else
      var e := QuoteEnd(json, s, q + 1);
      Some((Escapes.Unescaped(json[s..e], upperHex), e + 1))
  }

  method ReadString(json: Bytes, s: nat, upperHex: bool) returns (r: Option<(Bytes, nat)>)
    requires 1 <= s <= |json|
    ensures r == ReadStr(json, s, upperHex)
  {
    var q := Seek(json, s, QuoteOrBackslash);
    if q == |json| {
      return None;
    }
    if json[q] == '"' {
      return Some((json[s..q], q + 1));
    }
    var e := FindQuote(json, s, q + 1);
    var str := Escapes.Unescape(json[s..e], upperHex);
    return Some((str, e + 1));
  }

  /** A string without `"` or `\` is read back as it is. */
  lemma ReadPlainString(json: Bytes, s: nat, body: Bytes, rest: Bytes, upperHex: bool)
    requires 1 <= s <= |json| && json == json[..s] + body + ['"'] + rest
    requires forall j :: 0 <= j < |body| ==> !QuoteOrBackslash(body[j])
    ensures ReadStr(json, s, upperHex) == Some((body, s + |body| + 1))
  {
    var q := s + |body|;
    assert json[q] == '"';
    forall j | s <= j < q ensures !QuoteOrBackslash(json[j]) {
      assert json[j] == body[j - s];
    }
    FindSkip(json, s, q, QuoteOrBackslash);
    assert json[s..q] == body;
  }

  /** An object key: the next `"` opens it.  `None` when the input ends
      first (the source then leaves the previous key in place, but reaches
      the end of the input and reports nothing). */
  function ReadKey(json: Bytes, i: nat, upperHex: bool): (r: Option<(Bytes, nat)>)
    requires i <= |json|
    ensures r.Some? ==> i < r.value.1 <= |json| + 1
  {
    var k := Find(json, i, IsQuote);
    if k == |json| then None else ReadStr(json, k + 1, upperHex)
  }

  // ---------------------------------------------------------------------
  // Value tokens.

  /** A value token: `vc` is the source's value class (`"` for a string,
      `0` for a number, `{` and `[` for blocks, otherwise the first byte of
      a literal), `val` its bytes (empty for strings and blocks) and `next`
      the index where scanning resumes. */
  datatype Token = Token(vc: Byte, val: Bytes, next: nat)

  predicate IsBlock(vc: Byte) { vc == '{' || vc == '[' }

  /** The value scan, classifying by the first byte that is not ignored:
      `"`..`,` open a string, `-`..`Z` (but `:`) a number, `[` and `\` an
      array, `]`..`t` a literal word, anything from `u` on an object. */
  function ScanValue(json: Bytes, i: nat): (t: Option<Token>)
    requires i <= |json| + 1
    ensures t.Some? ==> i < t.value.next <= |json| && |t.value.val| <= t.value.next
    ensures t.Some? && (IsBlock(t.value.vc) || t.value.vc == '"') ==> t.value.val == []
    ensures t.Some? && t.value.vc == '[' ==> json[t.value.next - 1] == '[' || json[t.value.next - 1] == '\\'
    ensures t.Some? && t.value.vc == '{' ==> json[t.value.next - 1] >= 'u'
    ensures t.Some? && t.value.vc == '0' ==> t.value.val != [] && t.value.val == json[t.value.next - |t.value.val|..t.value.next]
    ensures t.Some? && !IsBlock(t.value.vc) && t.value.vc != '"' && t.value.vc != '0'
            ==> ']' <= t.value.vc < 'u' && t.value.val != [] && t.value.val[0] == t.value.vc
                && t.value.val == json[t.value.next - |t.value.val|..t.value.next]
  {
    if i >= |json| then None
    else
      var j := Find(json, i, StartsValue);
      if j == |json| then None else Some(ValueAt(json, j))
  }

  /** The classification of the value whose first byte is at `j`. */
  function ValueAt(json: Bytes, j: nat): (t: Token)
    requires j < |json| && StartsValue(json[j])
    ensures j < t.next <= |json|
  {
    var c := json[j];
    if c < '-' then Token('"', [], j + 1)
    else if c < '[' then
      var e := Find(json, j + 1, NumberStop);
      Token('0', json[j..e], e)
    else if c < ']' then Token('[', [], j + 1)
    else if c < 'u' then
      var e := Find(json, j + 1, NotLower);
      Token(c, json[j..e], e)
    else Token('{', [], j + 1)
  }

  /** The value loop of the source, with its early `continue`s for ignored
      bytes and its two inner loops for numbers and literal words. */
  method Scan(json: Bytes, i: nat) returns (t: Option<Token>)
    requires i <= |json| + 1
    ensures t == ScanValue(json, i)
  {
    if i >= |json| {
      return None;
    }
    var j := i;
    while j < |json|
      invariant i <= j <= |json|
      invariant Find(json, j, StartsValue) == Find(json, i, StartsValue)
    {
      var c := json[j];
      if c < '"' {
        j := j + 1;
        continue;
      }
      if c < '-' {
        FoundValue(json, i, j);
        return Some(Token('"', [], j + 1));
      }
      if c < '[' {
        if c == ':' {
          j := j + 1;
          continue;
        }
        FoundValue(json, i, j);
        var e := Seek(json, j + 1, NumberStop);
        return Some(Token('0', json[j..e], e));
      }
      FoundValue(json, i, j);
      if c < ']' {
        return Some(Token('[', [], j + 1));
      }
      if c < 'u' {
        var e := Seek(json, j + 1, NotLower);
        return Some(Token(c, json[j..e], e));
      }
      return Some(Token('{', [], j + 1));
    }
    return None;
  }

  /** Where the skipping stops, the scan has found its value. */
  lemma FoundValue(json: Bytes, i: nat, j: nat)
    requires i <= j < |json| && StartsValue(json[j])
    requires Find(json, j, StartsValue) == Find(json, i, StartsValue)
    ensures ScanValue(json, i) == Some(ValueAt(json, j))
    ensures json[j] < '-' ==> ValueAt(json, j) == Token('"', [], j + 1)
    ensures '-' <= json[j] < '[' ==> var e := Find(json, j + 1, NumberStop); ValueAt(json, j) == Token('0', json[j..e], e)
    ensures '[' <= json[j] < ']' ==> ValueAt(json, j) == Token('[', [], j + 1)
    ensures ']' <= json[j] < 'u' ==> var e := Find(json, j + 1, NotLower); ValueAt(json, j) == Token(json[j], json[j..e], e)
    ensures 'u' <= json[j] ==> ValueAt(json, j) == Token('{', [], j + 1)
  {
  }

  // ---------------------------------------------------------------------
  // Squashing a block.

  /** Skips the rest of a block whose opening byte has been read: counts
      nesting over `{`, `[`, `}` and `]`, and jumps over strings so that
      brackets inside them do not count.  The result is the index after the
      closing byte, or the length of `json` when the block does not close. */
  function SquashEnd(json: Bytes, i: nat, depth: nat): (e: nat)
    requires i <= |json| && depth >= 1
    ensures i <= e <= |json|
    decreases |json| - i
  {
    if i == |json| then i
    else
      var c := json[i];
      if c == '{' || c == '[' then SquashEnd(json, i + 1, depth + 1)
      else if c == '}' || c == ']' then (if depth == 1 then i + 1 else SquashEnd(json, i + 1, depth - 1))
      else if c == '"' then
        var e := QuoteEnd(json, i + 1, i + 1);
        if e == |json| then e else SquashEnd(json, e + 1, depth)
      else SquashEnd(json, i + 1, depth)
  }

  /** A squash that stops inside the document stops just after a closing
      bracket. */
  lemma {:induction false} SquashEndCloses(json: Bytes, i: nat, depth: nat)
    requires i <= |json| && depth >= 1
    ensures var e := SquashEnd(json, i, depth); e < |json| ==> i < e && (json[e - 1] == '}' || json[e - 1] == ']')
    decreases |json| - i
  {
    if i < |json| {
      var c := json[i];
      if c == '{' || c == '[' {
        SquashEndCloses(json, i + 1, depth + 1);
      } else if c == '}' || c == ']' {
        if depth > 1 { SquashEndCloses(json, i + 1, depth - 1); }
      } else if c == '"' {
        var e := QuoteEnd(json, i + 1, i + 1);
        if e < |json| { SquashEndCloses(json, e + 1, depth); }
      } else {
        SquashEndCloses(json, i + 1, depth);
      }
    }
  }

  /** The nesting depth after byte `c`, outside strings. */
  function DepthAfter(c: Byte, depth: nat): nat
  {
    if c == '{' || c == '[' then depth + 1
    else if (c == '}' || c == ']') && depth > 0 then depth - 1
    else depth
  }

  lemma SquashStep(json: Bytes, i: nat, depth: nat)
    requires i < |json| && depth >= 1 && json[i] != '"'
    requires (json[i] == '}' || json[i] == ']') ==> depth > 1
    ensures SquashEnd(json, i, depth) == SquashEnd(json, i + 1, DepthAfter(json[i], depth))
  {
  }

  lemma SquashQuote(json: Bytes, i: nat, depth: nat, q: nat)
    requires i < |json| && depth >= 1 && json[i] == '"'
    requires q == QuoteEnd(json, i + 1, i + 1) && q < |json|
    ensures SquashEnd(json, i, depth) == SquashEnd(json, q + 1, depth)
  {
  }

  /** The squash loop, with its nesting counter. */
  method Squash(json: Bytes, start: nat) returns (e: nat)
    requires start <= |json|
    ensures e == SquashEnd(json, start, 1)
  {
    var i := start;
    var depth := 1;
    while i < |json|
      invariant start <= i <= |json| && depth >= 1
      invariant SquashEnd(json, i, depth) == SquashEnd(json, start, 1)
    {
      var c := json[i];
      if c >= '"' && c <= '}' {
        if c == '{' || c == '[' {
          SquashStep(json, i, depth);
          depth := depth + 1;
        } else if c == '}' || c == ']' {
          if depth > 1 {
            SquashStep(json, i, depth);
          }
          depth := depth - 1;
          if depth == 0 {
            return i + 1;
          }
        } else if c == '"' {
          var q := FindQuote(json, i + 1, i + 1);
          if q == |json| {
            return q;
          }
          SquashQuote(json, i, depth, q);
          i := q;
        } else {
          SquashStep(json, i, depth);
        }
      } else {
        SquashStep(json, i, depth);
      }
      i := i + 1;
    }
    return i;
  }

  // ---------------------------------------------------------------------
  // Array keys.

  function DigitChar(d: nat): (c: Byte)
    requires d < 10
    ensures '0' <= c <= '9' && c as int - '0' as int == d
  {
    ('0' as int + d) as char
  }

  /** `strconv.FormatInt(n, 10)` for the element counter of an array frame. */
  function Decimal(n: nat): (s: Bytes)
    ensures s != [] && forall j :: 0 <= j < |s| ==> '0' <= s[j] <= '9'
    ensures n == 0 ==> s == "0"
    ensures n > 0 ==> s[0] != '0'
    decreases n
  {
    if n < 10 then [DigitChar(n)] else Decimal(n / 10) + [DigitChar(n % 10)]
  }

  /** The value of a string of decimal digits. */
  function DigitsValue(s: Bytes): nat
    requires forall j :: 0 <= j < |s| ==> '0' <= s[j] <= '9'
  {
    if s == [] then 0 else DigitsValue(s[..|s| - 1]) * 10 + (s[|s| - 1] as int - '0' as int)
  }

  /** Decimal round trip: reading the digits back gives the counter. */
  lemma {:induction false} DecimalRoundTrip(n: nat)
    ensures DigitsValue(Decimal(n)) == n
    decreases n
  {
    if n >= 10 {
      var s := Decimal(n);
      DecimalRoundTrip(n / 10);
      assert s[..|s| - 1] == Decimal(n / 10);
    }
  }

  /** Different counters give different keys. */
  lemma DecimalInjective(m: nat, n: nat)
    requires Decimal(m) == Decimal(n)
    ensures m == n
  {
    DecimalRoundTrip(m);
    DecimalRoundTrip(n);
  }
}
