/** The scan of `Get` agrees with the tree lookup on rendered documents:
    whenever the lookup of a path is defined, `Query` over the rendering
    gives the lookup's answer.  The proof follows the rendering: lemmas for
    one value (its token, its skip, its hit), for one member or element
    (its round), and for a whole container, by mutual induction over the
    tree. */
module Agreement {
  import opened Text
  import opened Results
  import opened Paths
  import opened Scanner
  import opened Search
  import opened Documents

  // ---------------------------------------------------------------------
  // Bytes at a position.

  /** `s` occurs in `json` at index `i`. */
  predicate At(json: Bytes, i: nat, s: Bytes)
  {
    i + |s| <= |json| && forall k {:trigger s[k]} :: 0 <= k < |s| ==> json[i + k] == s[k]
  }

  lemma {:induction false} AtConcat(json: Bytes, i: nat, a: Bytes, b: Bytes)
    requires At(json, i, a + b)
    ensures At(json, i, a) && At(json, i + |a|, b)
  {
    forall k | 0 <= k < |a| ensures json[i + k] == a[k] {
      assert (a + b)[k] == a[k];
    }
    forall k | 0 <= k < |b| ensures json[i + |a| + k] == b[k] {
      assert (a + b)[|a| + k] == b[k];
    }
  }

  lemma {:induction false} AtSlice(json: Bytes, i: nat, s: Bytes)
    requires At(json, i, s)
    ensures json[i..i + |s|] == s
  {
  }

  /** `s` occurs in `json` at index `i`, stated byte by byte from the
      front.  Being recursive, it is unfolded only on demand, which keeps
      the long chains of walk lemmas small; `LaidAt` turns it into `At`. */
  predicate Laid(json: Bytes, i: nat, s: Bytes)
    decreases |s|
  {
    i + |s| <= |json| && (s == [] || (json[i] == s[0] && Laid(json, i + 1, s[1..])))
  }

  lemma {:induction false} LaidAt(json: Bytes, i: nat, s: Bytes)
    ensures Laid(json, i, s) <==> At(json, i, s)
    decreases |s|
  {
    if s != [] {
      assert |s[1..]| == |s| - 1;
      LaidAt(json, i + 1, s[1..]);
      if At(json, i, s) {
        forall k | 0 <= k < |s| - 1 ensures json[i + 1 + k] == s[1..][k] {
          assert json[i + (k + 1)] == s[k + 1];
        }
      }
      if At(json, i + 1, s[1..]) && json[i] == s[0] {
        forall k | 0 <= k < |s| ensures json[i + k] == s[k] {
          if k > 0 {
            assert json[i + 1 + (k - 1)] == s[1..][k - 1];
          }
        }
      }
    }
  }

  /** The entries of a good container are good. */
  lemma {:induction false} GoodMember(v: Json, j: nat)
    requires Good(v) && v.JObject? && j < |v.members|
    ensures Plain(v.members[j].key) && Good(v.members[j].value)
  {
  }

  lemma {:induction false} GoodElem(v: Json, j: nat)
    requires Good(v) && v.JArray? && j < |v.elems|
    ensures Good(v.elems[j])
  {
  }

  /** The bytes that can follow a value in a rendering. */
  predicate Stop(c: Byte) { c == ',' || c == '}' || c == ']' }

  /** Where each part of a member's rendering lies. */
  lemma {:induction false} MemberLayout(json: Bytes, i: nat, v: Json, j: nat)
    requires v.JObject? && j < |v.members| && At(json, i, Members(v, j))
    ensures var m := v.members[j]; var vp := i + |m.key| + 3; var end := vp + |Render(m.value)|;
      json[i] == '"' && At(json, i + 1, m.key) && json[i + |m.key| + 1] == '"' && json[i + |m.key| + 2] == ':'
      && At(json, vp, Render(m.value)) && end < |json|
      && (j + 1 == |v.members| ==> json[end] == '}' && i + |Members(v, j)| == end + 1)
      && (j + 1 < |v.members| ==> json[end] == ',' && At(json, end + 1, Members(v, j + 1))
                                  && i + |Members(v, j)| == end + 1 + |Members(v, j + 1)|)
  {
    var m := v.members[j];
    var tail := if j + 1 == |v.members| then "}" else [','] + Members(v, j + 1);
    assert Members(v, j) == ['"'] + m.key + ['"', ':'] + Render(m.value) + tail;
    EntrySplit(json, i, m.key, Render(m.value), tail);
    var end := i + |m.key| + 3 + |Render(m.value)|;
    assert json[end] == tail[0];
    if j + 1 < |v.members| {
      AtConcat(json, end, [','], Members(v, j + 1));
    }
  }

  /** Where the quoted key `k`, the `:`, the value text `r` and what
      follows lie in a member's rendering. */
  lemma {:induction false} EntrySplit(json: Bytes, i: nat, k: Bytes, r: Bytes, tail: Bytes)
    requires At(json, i, ['"'] + k + ['"', ':'] + r + tail)
    ensures json[i] == '"' && At(json, i + 1, k) && json[i + |k| + 1] == '"' && json[i + |k| + 2] == ':'
    ensures At(json, i + |k| + 3, r) && At(json, i + |k| + 3 + |r|, tail)
  {
    AtConcat(json, i, ['"'] + k + ['"', ':'] + r, tail);
    AtConcat(json, i, ['"'] + k + ['"', ':'], r);
    AtConcat(json, i, ['"'] + k, ['"', ':']);
    AtConcat(json, i, ['"'], k);
    var q := i + 1 + |k|;
    var colon: Bytes := ['"', ':'];
    assert json[q + 0] == colon[0];
    assert json[q + 1] == colon[1];
  }

  /** Where each part of an element's rendering lies. */
  lemma {:induction false} ElemLayout(json: Bytes, i: nat, v: Json, j: nat)
    requires v.JArray? && j < |v.elems| && At(json, i, Elems(v, j))
    ensures var end := i + |Render(v.elems[j])|;
      At(json, i, Render(v.elems[j])) && end < |json|
      && (j + 1 == |v.elems| ==> json[end] == ']' && i + |Elems(v, j)| == end + 1)
      && (j + 1 < |v.elems| ==> json[end] == ',' && At(json, end + 1, Elems(v, j + 1))
                                && i + |Elems(v, j)| == end + 1 + |Elems(v, j + 1)|)
  {
    var tail := if j + 1 == |v.elems| then "]" else [','] + Elems(v, j + 1);
    AtConcat(json, i, Render(v.elems[j]), tail);
    var end := i + |Render(v.elems[j])|;
    assert json[end] == tail[0];
    if j + 1 < |v.elems| {
      AtConcat(json, end, [','], Elems(v, j + 1));
    }
  }

  /** Where the entries of a container's rendering lie. */
  lemma {:induction false} ContainerLayout(json: Bytes, p: nat, v: Json)
    requires Good(v) && IsContainer(v) && At(json, p, Render(v))
    ensures json[p] == Opener(v)
    ensures v.JArray? ==> At(json, p + 1, Elems(v, 0)) && |Render(v)| == 1 + |Elems(v, 0)|
    ensures v.JObject? ==> At(json, p + 1, Members(v, 0)) && |Render(v)| == 1 + |Members(v, 0)|
  {
    if v.JArray? {
      AtConcat(json, p, ['['], Elems(v, 0));
    } else {
      AtConcat(json, p, ['{'], Members(v, 0));
    }
  }

  /** `MemberLayout` for a member laid out with `Laid`. */
  lemma {:induction false} MemberLaid(json: Bytes, i: nat, v: Json, j: nat)
    requires v.JObject? && j < |v.members| && Laid(json, i, Members(v, j))
    ensures var m := v.members[j]; var vp := i + |m.key| + 3; var end := vp + |Render(m.value)|;
      Laid(json, vp, Render(m.value)) && end < |json|
      && (j + 1 == |v.members| ==> json[end] == '}' && i + |Members(v, j)| == end + 1)
      && (j + 1 < |v.members| ==> json[end] == ',' && Laid(json, end + 1, Members(v, j + 1))
                                  && i + |Members(v, j)| == end + 1 + |Members(v, j + 1)|)
  {
    var m := v.members[j];
    var end := i + |m.key| + 3 + |Render(m.value)|;
    LaidAt(json, i, Members(v, j));
    MemberLayout(json, i, v, j);
    LaidAt(json, i + |m.key| + 3, Render(m.value));
    if j + 1 < |v.members| {
      LaidAt(json, end + 1, Members(v, j + 1));
    }
  }

  /** `ElemLayout` for an element laid out with `Laid`. */
  lemma {:induction false} ElemLaid(json: Bytes, i: nat, v: Json, j: nat)
    requires v.JArray? && j < |v.elems| && Laid(json, i, Elems(v, j))
    ensures var end := i + |Render(v.elems[j])|;
      Laid(json, i, Render(v.elems[j])) && end < |json|
      && (j + 1 == |v.elems| ==> json[end] == ']' && i + |Elems(v, j)| == end + 1)
      && (j + 1 < |v.elems| ==> json[end] == ',' && Laid(json, end + 1, Elems(v, j + 1))
                                && i + |Elems(v, j)| == end + 1 + |Elems(v, j + 1)|)
  {
    var end := i + |Render(v.elems[j])|;
    LaidAt(json, i, Elems(v, j));
    ElemLayout(json, i, v, j);
    LaidAt(json, i, Render(v.elems[j]));
    if j + 1 < |v.elems| {
      LaidAt(json, end + 1, Elems(v, j + 1));
    }
  }

  /** `ContainerLayout` for a container laid out with `Laid`. */
  lemma {:induction false} ContainerLaid(json: Bytes, p: nat, v: Json)
    requires Good(v) && IsContainer(v) && Laid(json, p, Render(v))
    ensures p < |json| && json[p] == Opener(v)
    ensures v.JArray? ==> v.elems != [] && Laid(json, p + 1, Elems(v, 0)) && |Render(v)| == 1 + |Elems(v, 0)|
    ensures v.JObject? ==> v.members != [] && Laid(json, p + 1, Members(v, 0)) && |Render(v)| == 1 + |Members(v, 0)|
  {
    LaidAt(json, p, Render(v));
    ContainerLayout(json, p, v);
    if v.JArray? {
      LaidAt(json, p + 1, Elems(v, 0));
    } else {
      LaidAt(json, p + 1, Members(v, 0));
    }
  }

  // ---------------------------------------------------------------------
  // Plain strings.

  /** The quote that ends a plain string is the first one after it opens. */
  lemma {:induction false} QuotePlain(json: Bytes, x: nat, k: nat, s: nat, t: Bytes)
    requires 1 <= s <= k <= s + |t| && s + |t| < |json|
    requires json[s - 1] == '"' && At(json, s, t) && Plain(t) && json[s + |t|] == '"'
    ensures QuoteEnd(json, x, k) == s + |t|
    decreases s + |t| - k
  {
    if k < s + |t| {
      assert json[k] == t[k - s];
      QuotePlain(json, x, k + 1, s, t);
    } else if t != [] {
      assert json[k - 1] == t[|t| - 1];
    }
  }

  /** A plain string is read back as it is. */
  lemma {:induction false} ReadPlain(json: Bytes, s: nat, t: Bytes, upperHex: bool)
    requires 1 <= s && At(json, s, t) && Plain(t) && s + |t| < |json| && json[s + |t|] == '"'
    ensures ReadStr(json, s, upperHex) == Some((t, s + |t| + 1))
  {
    forall j | s <= j < s + |t| ensures !QuoteOrBackslash(json[j]) {
      assert json[j] == t[j - s];
    }
    FindSkip(json, s, s + |t|, QuoteOrBackslash);
    AtSlice(json, s, t);
  }

  // ---------------------------------------------------------------------
  // Value tokens of a rendering.

  /** The token the scan reads for a rendered value at `vp`. */
  function TokenOf(e: Json, vp: nat): (t: Token)
  {
    match e
    case JNull => Token('n', "null", vp + 4)
    case JTrue => Token('t', "true", vp + 4)
    case JFalse => Token('f', "false", vp + 5)
    case JNumber(t) => Token('0', Render(e), vp + |Render(e)|)
    case JString(_) => Token('"', [], vp + 1)
    case JArray(_) => Token('[', [], vp + 1)
    case JObject(_) => Token('{', [], vp + 1)
  }

  lemma {:induction false} WordScan(json: Bytes, vp: nat, w: Bytes)
    requires |w| >= 1 && At(json, vp, w) && vp + |w| < |json| && Stop(json[vp + |w|])
    requires forall k :: 0 <= k < |w| ==> 'a' <= w[k] <= 'z'
    ensures Find(json, vp + 1, NotLower) == vp + |w|
  {
    forall k | vp + 1 <= k < vp + |w| ensures !NotLower(json[k]) {
      assert json[k] == w[k - vp];
    }
    FindSkip(json, vp + 1, vp + |w|, NotLower);
  }

  lemma {:induction false} NumberScan(json: Bytes, vp: nat, t: Bytes)
    requires NumberText(t) && At(json, vp, t) && vp + |t| < |json| && Stop(json[vp + |t|])
    ensures Find(json, vp + 1, NumberStop) == vp + |t|
  {
    forall k | vp + 1 <= k < vp + |t| ensures !NumberStop(json[k]) {
      assert json[k] == t[k - vp];
      assert NumberByte(t[k - vp]);
    }
    FindSkip(json, vp + 1, vp + |t|, NumberStop);
  }

  /** The scan of a rendered value, after any ignored bytes before it. */
  lemma {:induction false} ScanRendered(json: Bytes, next: nat, vp: nat, e: Json)
    requires Good(e) && At(json, vp, Render(e)) && vp + |Render(e)| < |json| && Stop(json[vp + |Render(e)|])
    requires next <= vp && forall k :: next <= k < vp ==> Ignored(json[k])
    ensures ScanValue(json, next) == Some(TokenOf(e, vp))
  {
    RenderStartsValue(e);
    assert json[vp] == Render(e)[0];
    FindSkip(json, next, vp, StartsValue);
    FoundRendered(json, next, vp, e);
  }

  /** A rendering starts with a byte that starts a value. */
  lemma RenderStartsValue(e: Json)
    requires Good(e)
    ensures StartsValue(Render(e)[0])
  {
  }

  lemma {:induction false} FoundRendered(json: Bytes, next: nat, vp: nat, e: Json)
    requires Good(e) && At(json, vp, Render(e)) && vp + |Render(e)| < |json| && Stop(json[vp + |Render(e)|])
    requires next <= vp && Find(json, next, StartsValue) == vp
    ensures ScanValue(json, next) == Some(TokenOf(e, vp))
  {
    match e
    case JNull => NullScanned(json, next, vp, e);
    case JTrue => TrueScanned(json, next, vp, e);
    case JFalse => FalseScanned(json, next, vp, e);
    case JNumber(t) => NumberRendered(json, next, vp, e);
    case _ => BlockRendered(json, next, vp, e);
  }

  lemma {:induction false} BlockRendered(json: Bytes, next: nat, vp: nat, e: Json)
    requires e.JString? || e.JArray? || e.JObject?
    requires At(json, vp, Render(e)) && vp < |json|
    requires next <= vp && Find(json, next, StartsValue) == vp
    ensures ScanValue(json, next) == Some(TokenOf(e, vp))
  {
    assert json[vp] == Render(e)[0];
    FoundValue(json, next, vp);
  }

  lemma {:induction false} NumberRendered(json: Bytes, next: nat, vp: nat, e: Json)
    requires e.JNumber? && Good(e) && At(json, vp, Render(e)) && vp + |Render(e)| < |json| && Stop(json[vp + |Render(e)|])
    requires next <= vp && Find(json, next, StartsValue) == vp
    ensures ScanValue(json, next) == Some(TokenOf(e, vp))
  {
    NumberScanned(json, next, vp, e.text);
  }

  lemma {:induction false} NullScanned(json: Bytes, next: nat, vp: nat, e: Json)
    requires e == JNull && At(json, vp, Render(e)) && vp + 4 < |json| && Stop(json[vp + 4])
    requires next <= vp && Find(json, next, StartsValue) == vp
    ensures ScanValue(json, next) == Some(TokenOf(e, vp))
  {
    WordScanned(json, next, vp, "null");
  }

  lemma {:induction false} TrueScanned(json: Bytes, next: nat, vp: nat, e: Json)
    requires e == JTrue && At(json, vp, Render(e)) && vp + 4 < |json| && Stop(json[vp + 4])
    requires next <= vp && Find(json, next, StartsValue) == vp
    ensures ScanValue(json, next) == Some(TokenOf(e, vp))
  {
    WordScanned(json, next, vp, "true");
  }

  lemma {:induction false} FalseScanned(json: Bytes, next: nat, vp: nat, e: Json)
    requires e == JFalse && At(json, vp, Render(e)) && vp + 5 < |json| && Stop(json[vp + 5])
    requires next <= vp && Find(json, next, StartsValue) == vp
    ensures ScanValue(json, next) == Some(TokenOf(e, vp))
  {
    WordScanned(json, next, vp, "false");
  }

  lemma {:induction false} WordScanned(json: Bytes, next: nat, vp: nat, w: Bytes)
    requires |w| >= 1 && At(json, vp, w) && vp + |w| < |json| && Stop(json[vp + |w|])
    requires forall k :: 0 <= k < |w| ==> 'a' <= w[k] <= 'z'
    requires next <= vp && Find(json, next, StartsValue) == vp && ']' <= w[0] < 'u'
    ensures ScanValue(json, next) == Some(Token(w[0], w, vp + |w|))
  {
    WordScan(json, vp, w);
    AtSlice(json, vp, w);
    assert json[vp] == w[0];
  }

  lemma {:induction false} NumberScanned(json: Bytes, next: nat, vp: nat, t: Bytes)
    requires NumberText(t) && At(json, vp, t) && vp + |t| < |json| && Stop(json[vp + |t|])
    requires next <= vp && Find(json, next, StartsValue) == vp
    ensures ScanValue(json, next) == Some(Token('0', t, vp + |t|))
  {
    NumberScan(json, vp, t);
    AtSlice(json, vp, t);
    assert json[vp] == t[0];
  }

  // ---------------------------------------------------------------------
  // Squashing over a rendering.

  /** Bytes that the squash steps over one at a time. */
  predicate Inert(c: Byte) { c != '{' && c != '[' && c != '}' && c != ']' && c != '"' }

  lemma {:induction false} SquashSkip(json: Bytes, i: nat, m: nat, d: nat)
    requires i <= m <= |json| && d >= 1
    requires forall k :: i <= k < m ==> Inert(json[k])
    ensures SquashEnd(json, i, d) == SquashEnd(json, m, d)
    decreases m - i
  {
    if i < m {
      SquashSkip(json, i + 1, m, d);
    }
  }

  lemma {:induction false} SquashInert(json: Bytes, p: nat, w: Bytes, d: nat)
    requires At(json, p, w) && d >= 1
    requires forall k :: 0 <= k < |w| ==> Inert(w[k])
    ensures SquashEnd(json, p, d) == SquashEnd(json, p + |w|, d)
  {
    forall k | p <= k < p + |w| ensures Inert(json[k]) {
      assert json[k] == w[k - p];
    }
    SquashSkip(json, p, p + |w|, d);
  }

  /** The squash jumps over a plain string whose opening quote is at `p`. */
  lemma {:induction false} SquashString(json: Bytes, p: nat, t: Bytes, d: nat)
    requires p + 1 + |t| < |json| && json[p] == '"' && At(json, p + 1, t) && json[p + 1 + |t|] == '"'
    requires Plain(t) && d >= 1
    ensures SquashEnd(json, p, d) == SquashEnd(json, p + |t| + 2, d)
  {
    QuotePlain(json, p + 1, p + 1, p + 1, t);
  }

  /** Squashing steps over a whole rendered value. */
  lemma {:induction false} SquashValue(json: Bytes, p: nat, e: Json, d: nat)
    requires Good(e) && At(json, p, Render(e)) && d >= 1
    ensures SquashEnd(json, p, d) == SquashEnd(json, p + |Render(e)|, d)
    decreases e, 2, 0, 0
  {
    match e
    case JNull => SquashInert(json, p, "null", d);
    case JTrue => SquashInert(json, p, "true", d);
    case JFalse => SquashInert(json, p, "false", d);
    case JNumber(t) =>
      forall k | 0 <= k < |t| ensures Inert(t[k]) {
        assert NumberByte(t[k]);
      }
      SquashInert(json, p, t, d);
    case JString(t) =>
      AtConcat(json, p, ['"'] + t, ['"']);
      AtConcat(json, p, ['"'], t);
      SquashString(json, p, t, d);
    case JArray(_) =>
      LaidAt(json, p, Render(e));
      SquashContainer(json, p, e, d);
    case JObject(_) =>
      LaidAt(json, p, Render(e));
      SquashContainer(json, p, e, d);
  }

  /** Squashing steps over a whole rendered container. */
  lemma {:induction false} SquashContainer(json: Bytes, p: nat, e: Json, d: nat)
    requires Good(e) && IsContainer(e) && Laid(json, p, Render(e)) && d >= 1
    ensures SquashEnd(json, p, d) == SquashEnd(json, p + |Render(e)|, d)
    decreases e, 1, 0, 0
  {
    ContainerLaid(json, p, e);
    var q := p + |Render(e)|;
    if e.JArray? {
      SquashElems(json, p + 1, e, 0, d + 1);
      assert SquashEnd(json, p + 1, d + 1) == SquashEnd(json, q, d);
    } else {
      SquashMembers(json, p + 1, e, 0, d + 1);
      assert SquashEnd(json, p + 1, d + 1) == SquashEnd(json, q, d);
    }
    SquashOpen(json, p, q, d);
  }

  /** An opening bracket at `p` nests the squash one level deeper. */
  lemma {:induction false} SquashOpen(json: Bytes, p: nat, q: nat, d: nat)
    requires p < |json| && q <= |json| && d >= 1 && (json[p] == '{' || json[p] == '[')
    requires SquashEnd(json, p + 1, d + 1) == SquashEnd(json, q, d)
    ensures SquashEnd(json, p, d) == SquashEnd(json, q, d)
  {
  }

  /** A level whose squash reaches an entry's `,` at `end` ends where the
      squash of the next entry ends. */
  lemma {:induction false} SquashComma(json: Bytes, i: nat, end: nat, q: nat, d: nat)
    requires i <= end < |json| && q <= |json| && d >= 1 && json[end] == ','
    requires SquashEnd(json, i, d) == SquashEnd(json, end, d)
    requires SquashEnd(json, end + 1, d) == if d == 1 then q else SquashEnd(json, q, d - 1)
    ensures SquashEnd(json, i, d) == if d == 1 then q else SquashEnd(json, q, d - 1)
  {
    assert SquashEnd(json, end, d) == SquashEnd(json, end + 1, d);
  }

  /** A level whose squash reaches its closing bracket at `end`. */
  lemma {:induction false} SquashClose(json: Bytes, i: nat, end: nat, q: nat, d: nat)
    requires i <= end < |json| && q == end + 1 && d >= 1 && (json[end] == '}' || json[end] == ']')
    requires SquashEnd(json, i, d) == SquashEnd(json, end, d)
    ensures SquashEnd(json, i, d) == if d == 1 then q else SquashEnd(json, q, d - 1)
  {
  }

  /** Squashing the elements from `j` on leaves the level at the closing `]`. */
  lemma {:induction false} SquashElems(json: Bytes, i: nat, v: Json, j: nat, d: nat)
    requires Good(v) && v.JArray? && j < |v.elems| && Laid(json, i, Elems(v, j)) && d >= 1
    ensures SquashEnd(json, i, d) == if d == 1 then i + |Elems(v, j)| else SquashEnd(json, i + |Elems(v, j)|, d - 1)
    decreases v, 0, |v.elems| - j, 1
  {
    ElemLaid(json, i, v, j);
    SquashElem(json, i, v, j, d);
    var end := i + |Render(v.elems[j])|;
    if j + 1 < |v.elems| {
      SquashElems(json, end + 1, v, j + 1, d);
      SquashComma(json, i, end, i + |Elems(v, j)|, d);
    } else {
      SquashClose(json, i, end, i + |Elems(v, j)|, d);
    }
  }

  /** Squashing steps over element `j`. */
  lemma {:induction false} SquashElem(json: Bytes, i: nat, v: Json, j: nat, d: nat)
    requires Good(v) && v.JArray? && j < |v.elems| && Laid(json, i, Render(v.elems[j])) && d >= 1
    ensures SquashEnd(json, i, d) == SquashEnd(json, i + |Render(v.elems[j])|, d)
    decreases v, 0, |v.elems| - j, 0
  {
    LaidAt(json, i, Render(v.elems[j]));
    GoodElem(v, j);
    SquashValue(json, i, v.elems[j], d);
  }

  /** Squashing steps over member `j`: its key, the `:` and its value. */
  lemma {:induction false} SquashMember(json: Bytes, i: nat, v: Json, j: nat, d: nat)
    requires Good(v) && v.JObject? && j < |v.members| && Laid(json, i, Members(v, j)) && d >= 1
    ensures SquashEnd(json, i, d) == SquashEnd(json, i + |v.members[j].key| + 3 + |Render(v.members[j].value)|, d)
    decreases v, 0, |v.members| - j, 0
  {
    LaidAt(json, i, Members(v, j));
    MemberLayout(json, i, v, j);
    GoodMember(v, j);
    var m := v.members[j];
    SquashString(json, i, m.key, d);
    var vp := i + |m.key| + 3;
    assert SquashEnd(json, vp - 1, d) == SquashEnd(json, vp, d);
    assert m in v.members;
    SquashValue(json, vp, m.value, d);
  }

  /** Squashing the members from `j` on leaves the level at the closing `}`. */
  lemma {:induction false} SquashMembers(json: Bytes, i: nat, v: Json, j: nat, d: nat)
    requires Good(v) && v.JObject? && j < |v.members| && Laid(json, i, Members(v, j)) && d >= 1
    ensures SquashEnd(json, i, d) == if d == 1 then i + |Members(v, j)| else SquashEnd(json, i + |Members(v, j)|, d - 1)
    decreases v, 0, |v.members| - j, 1
  {
    MemberLaid(json, i, v, j);
    SquashMember(json, i, v, j, d);
    var end := i + |v.members[j].key| + 3 + |Render(v.members[j].value)|;
    if j + 1 < |v.members| {
      SquashMembers(json, end + 1, v, j + 1, d);
      SquashComma(json, i, end, i + |Members(v, j)|, d);
    } else {
      SquashClose(json, i, end, i + |Members(v, j)|, d);
    }
  }

  /** Squashing a matched block ends just after its rendering. */
  lemma {:induction false} SquashBlock(json: Bytes, vp: nat, e: Json)
    requires Good(e) && IsContainer(e) && At(json, vp, Render(e))
    ensures SquashEnd(json, vp + 1, 1) == vp + |Render(e)|
  {
    LaidAt(json, vp, Render(e));
    ContainerLaid(json, vp, e);
    if e.JArray? {
      SquashElems(json, vp + 1, e, 0, 1);
    } else {
      SquashMembers(json, vp + 1, e, 0, 1);
    }
  }

  // ---------------------------------------------------------------------
  // One value of a rendering.

  /** A plain string rendered at `vp`: where its contents and quotes lie. */
  lemma {:induction false} StringLayout(json: Bytes, vp: nat, t: Bytes)
    requires At(json, vp, ['"'] + t + ['"'])
    ensures json[vp] == '"' && At(json, vp + 1, t) && json[vp + 1 + |t|] == '"'
  {
    AtConcat(json, vp, ['"'] + t, ['"']);
    AtConcat(json, vp, ['"'], t);
    var q: Bytes := ['"'];
    assert json[vp + 0] == q[0];
    assert json[vp + 1 + |t| + 0] == q[0];
  }

  /** Where the scan resumes after a value it skips: just past the rendering. */
  lemma {:induction false} SkipRendered(json: Bytes, e: Json, vp: nat)
    requires Good(e) && At(json, vp, Render(e)) && vp + |Render(e)| < |json|
    ensures var t := TokenOf(e, vp);
      (if t.vc == '"' then QuoteEnd(json, t.next, t.next) + 1
       else if IsBlock(t.vc) then SquashEnd(json, t.next, 1) else t.next) == vp + |Render(e)|
  {
    match e
    case JString(t) =>
      StringLayout(json, vp, t);
      QuotePlain(json, vp + 1, vp + 1, vp + 1, t);
    case JArray(_) => SquashBlock(json, vp, e);
    case JObject(_) => SquashBlock(json, vp, e);
    case _ =>
  }

  /** The answer for a rendered value the last part matched. */
  lemma {:induction false} HitRendered(json: Bytes, parse: Bytes -> real, upperHex: bool, e: Json, vp: nat)
    requires Good(e) && At(json, vp, Render(e)) && vp + |Render(e)| < |json|
    ensures var t := TokenOf(e, vp);
      var after := if IsBlock(t.vc) then SquashEnd(json, t.next, 1) else t.next;
      1 <= t.next <= after <= |json| && Hit(json, parse, upperHex, t, after) == Expected(e, parse)
  {
    match e
    case JString(t) => HitString(json, parse, upperHex, t, vp);
    case JArray(_) => HitBlock(json, parse, upperHex, e, vp);
    case JObject(_) => HitBlock(json, parse, upperHex, e, vp);
    case _ =>
  }

  lemma {:induction false} HitString(json: Bytes, parse: Bytes -> real, upperHex: bool, t: Bytes, vp: nat)
    requires Plain(t) && At(json, vp, ['"'] + t + ['"']) && vp + |t| + 2 < |json|
    ensures Hit(json, parse, upperHex, Token('"', [], vp + 1), vp + 1) == Result(String, [], t, 0.0)
  {
    StringLayout(json, vp, t);
    ReadPlain(json, vp + 1, t, upperHex);
  }

  lemma {:induction false} HitBlock(json: Bytes, parse: Bytes -> real, upperHex: bool, e: Json, vp: nat)
    requires Good(e) && IsContainer(e) && At(json, vp, Render(e)) && vp + |Render(e)| < |json|
    ensures SquashEnd(json, vp + 1, 1) == vp + |Render(e)|
    ensures Hit(json, parse, upperHex, Token(Opener(e), [], vp + 1), vp + |Render(e)|) == Result(JSON, Render(e), [], 0.0)
  {
    SquashBlock(json, vp, e);
    AtSlice(json, vp, Render(e));
  }

  /** The rest of a round whose value is a rendered `e` at `vp`, when the
      last part matched: the answer is `Expected`. */
  lemma {:induction false} ProceedHit(json: Bytes, parts: seq<Part>, parse: Bytes -> real, upperHex: bool, next: nat, vp: nat, e: Json,
                                      f1: Frame, stack: seq<Frame>)
    requires Good(e) && At(json, vp, Render(e)) && vp + |Render(e)| < |json| && Stop(json[vp + |Render(e)|])
    requires next <= vp && forall k :: next <= k < vp ==> Ignored(json[k])
    requires 1 <= |stack| == |parts|
    ensures Proceed(json, parts, parse, upperHex, next, true, f1, stack) == Done(Expected(e, parse))
  {
    ScanRendered(json, next, vp, e);
    HitRendered(json, parse, upperHex, e, vp);
  }

  /** The rest of a round whose value is a rendered container `e` at `vp`,
      when a part before the last matched: the scan goes on inside it. */
  lemma {:induction false} ProceedDescend(json: Bytes, parts: seq<Part>, parse: Bytes -> real, upperHex: bool, next: nat, vp: nat, e: Json,
                                          f1: Frame, stack: seq<Frame>)
    requires Good(e) && IsContainer(e) && At(json, vp, Render(e)) && vp + |Render(e)| < |json| && Stop(json[vp + |Render(e)|])
    requires next <= vp && forall k :: next <= k < vp ==> Ignored(json[k])
    requires 1 <= |stack| < |parts|
    ensures Proceed(json, parts, parse, upperHex, next, true, f1, stack) == Next(vp + 1, Frame(Opener(e), 0), stack + [Frame(Opener(e), 0)])
  {
    ScanRendered(json, next, vp, e);
  }

  /** The rest of a round whose value is a rendered `e` at `vp`, when the
      key did not match: the read on starts just past the value. */
  lemma {:induction false} ProceedSkip(json: Bytes, parts: seq<Part>, parse: Bytes -> real, upperHex: bool, next: nat, vp: nat, end: nat, e: Json,
                                       f1: Frame, stack: seq<Frame>)
    requires Good(e) && At(json, vp, Render(e)) && end == vp + |Render(e)| && end < |json| && Stop(json[end])
    requires next <= vp && forall k :: next <= k < vp ==> Ignored(json[k])
    requires 1 <= |stack| <= |parts|
    ensures Proceed(json, parts, parse, upperHex, next, false, f1, stack) == ToComma(json, parts, end, f1, stack)
  {
    ScanRendered(json, next, vp, e);
    SkipRendered(json, e, vp);
  }

  // ---------------------------------------------------------------------
  // Rounds over a rendering.

  /** The answer once a round has produced `o`. */
  function Resume(json: Bytes, parts: seq<Part>, parse: Bytes -> real, upperHex: bool, o: Outcome): Result
    requires o.Next? ==> o.i <= |json| && 1 <= |o.stack| <= |parts|
  {
    match o
    case Done(r) => r
    case Next(i, f, st) => Walk(json, parts, parse, upperHex, i, f, st)
  }

  /** The answer once a level has closed just before `q` without a match:
      nothing at the outermost level, otherwise the scan goes on in the
      level below with the frame stored there. */
  function AfterClose(json: Bytes, parts: seq<Part>, parse: Bytes -> real, upperHex: bool, q: nat, stack: seq<Frame>): Result
    requires q <= |json| + 1 && 1 <= |stack| <= |parts|
  {
    if |stack| == 1 then NotFound
    else
      var st := stack[..|stack| - 1];
      Resume(json, parts, parse, upperHex, ToComma(json, parts, q, st[|st| - 1], st))
  }

  /** A level's answer `r`, or, when it is `NotFound`, what follows its close at `q`. */
  function Settle(r: Result, json: Bytes, parts: seq<Part>, parse: Bytes -> real, upperHex: bool, q: nat, stack: seq<Frame>): Result
    requires q <= |json| + 1 && 1 <= |stack| <= |parts|
  {
    if r != NotFound then r else AfterClose(json, parts, parse, upperHex, q, stack)
  }

  /** A closing bracket reached while reading on to a comma. */
  lemma {:induction false} CloseAt(json: Bytes, parts: seq<Part>, parse: Bytes -> real, upperHex: bool, q: nat, f: Frame, stack: seq<Frame>)
    requires q < |json| && (json[q] == '}' || json[q] == ']') && 1 <= |stack| <= |parts|
    ensures Resume(json, parts, parse, upperHex, ToComma(json, parts, q, f, stack))
         == if parts[|stack| - 1].key == "#" then Count(f.count) else AfterClose(json, parts, parse, upperHex, q + 1, stack)
  {
  }

  /** A comma reached while reading on to a comma. */
  lemma {:induction false} CommaAt(json: Bytes, parts: seq<Part>, parse: Bytes -> real, upperHex: bool, q: nat, f: Frame, stack: seq<Frame>)
    requires q < |json| && json[q] == ',' && 1 <= |stack| <= |parts|
    ensures Resume(json, parts, parse, upperHex, ToComma(json, parts, q, f, stack)) == Walk(json, parts, parse, upperHex, q + 1, f, stack)
  {
  }

  /** The round of a member at `i`: its key is read and the value scanned after it. */
  lemma {:induction false} MemberRound(json: Bytes, parts: seq<Part>, parse: Bytes -> real, upperHex: bool, m: Member, i: nat, n: nat, stack: seq<Frame>)
    requires Plain(m.key) && n == i + |m.key| + 2 && n < |json|
    requires json[i] == '"' && At(json, i + 1, m.key) && json[n - 1] == '"'
    requires 1 <= |stack| <= |parts|
    ensures Round(json, parts, parse, upperHex, i, Frame('{', 0), stack)
         == Proceed(json, parts, parse, upperHex, n, Matches(parts[|stack| - 1], m.key), Frame('{', 0), stack)
  {
    assert Find(json, i, IsQuote) == i;
    ReadPlain(json, i + 1, m.key, upperHex);
  }

  /** Member `m` rendered at `i`: its quoted key, `:` at `i + |m.key| + 2`,
      then its value, followed by a byte that can end a value. */
  predicate MemberAt(json: Bytes, m: Member, i: nat)
  {
    var n := i + |m.key| + 2;
    var end := n + 1 + |Render(m.value)|;
    Plain(m.key) && Good(m.value) && end < |json|
    && json[i] == '"' && At(json, i + 1, m.key) && json[n - 1] == '"' && json[n] == ':'
    && At(json, n + 1, Render(m.value)) && Stop(json[end])
  }

  /** The round of a member laid out at `i` reads its key and goes on just
      after the `:`. */
  lemma {:induction false} MemberKeyRead(json: Bytes, parts: seq<Part>, parse: Bytes -> real, upperHex: bool, m: Member, i: nat, stack: seq<Frame>)
    requires MemberAt(json, m, i) && 1 <= |stack| <= |parts|
    ensures Round(json, parts, parse, upperHex, i, Frame('{', 0), stack)
         == Proceed(json, parts, parse, upperHex, i + |m.key| + 2, Matches(parts[|stack| - 1], m.key), Frame('{', 0), stack)
  {
    MemberRound(json, parts, parse, upperHex, m, i, i + |m.key| + 2, stack);
  }

  /** The value of a member whose key does not match is skipped. */
  lemma {:induction false} MemberValueSkip(json: Bytes, parts: seq<Part>, parse: Bytes -> real, upperHex: bool, m: Member, i: nat, stack: seq<Frame>)
    requires MemberAt(json, m, i) && 1 <= |stack| <= |parts|
    ensures Proceed(json, parts, parse, upperHex, i + |m.key| + 2, false, Frame('{', 0), stack)
         == ToComma(json, parts, i + |m.key| + 3 + |Render(m.value)|, Frame('{', 0), stack)
  {
    var n := i + |m.key| + 2;
    ProceedSkip(json, parts, parse, upperHex, n, n + 1, n + 1 + |Render(m.value)|, m.value, Frame('{', 0), stack);
  }

  /** The value of a member that the last part matches is the answer. */
  lemma {:induction false} MemberValueHit(json: Bytes, parts: seq<Part>, parse: Bytes -> real, upperHex: bool, m: Member, i: nat, stack: seq<Frame>)
    requires MemberAt(json, m, i) && 1 <= |stack| == |parts|
    ensures Proceed(json, parts, parse, upperHex, i + |m.key| + 2, true, Frame('{', 0), stack) == Done(Expected(m.value, parse))
  {
    var n := i + |m.key| + 2;
    ProceedHit(json, parts, parse, upperHex, n, n + 1, m.value, Frame('{', 0), stack);
  }

  /** A container value of a member that a part before the last matches is entered. */
  lemma {:induction false} MemberValueInto(json: Bytes, parts: seq<Part>, parse: Bytes -> real, upperHex: bool, m: Member, i: nat, stack: seq<Frame>)
    requires MemberAt(json, m, i) && IsContainer(m.value) && 1 <= |stack| < |parts|
    ensures var c := Frame(Opener(m.value), 0);
      Proceed(json, parts, parse, upperHex, i + |m.key| + 2, true, Frame('{', 0), stack) == Next(i + |m.key| + 4, c, stack + [c])
  {
    var n := i + |m.key| + 2;
    ProceedDescend(json, parts, parse, upperHex, n, n + 1, m.value, Frame('{', 0), stack);
  }

  /** The round of a member whose key does not match reads on after its value. */
  lemma {:induction false} MemberMiss(json: Bytes, parts: seq<Part>, parse: Bytes -> real, upperHex: bool, m: Member, i: nat, end: nat, stack: seq<Frame>)
    requires MemberAt(json, m, i) && end == i + |m.key| + 3 + |Render(m.value)|
    requires 1 <= |stack| <= |parts| && !Matches(parts[|stack| - 1], m.key)
    ensures Round(json, parts, parse, upperHex, i, Frame('{', 0), stack) == ToComma(json, parts, end, Frame('{', 0), stack)
  {
    MemberKeyRead(json, parts, parse, upperHex, m, i, stack);
    MemberValueSkip(json, parts, parse, upperHex, m, i, stack);
  }

  /** The round of a member that the last part matches answers its value. */
  lemma {:induction false} MemberHit(json: Bytes, parts: seq<Part>, parse: Bytes -> real, upperHex: bool, m: Member, i: nat, stack: seq<Frame>)
    requires MemberAt(json, m, i)
    requires 1 <= |stack| == |parts| && Matches(parts[|stack| - 1], m.key)
    ensures Round(json, parts, parse, upperHex, i, Frame('{', 0), stack) == Done(Expected(m.value, parse))
  {
    MemberKeyRead(json, parts, parse, upperHex, m, i, stack);
    MemberValueHit(json, parts, parse, upperHex, m, i, stack);
  }

  /** The round of a member that a part before the last matches, whose
      value is a container starting at `vp`, goes on inside the value. */
  lemma {:induction false} MemberInto(json: Bytes, parts: seq<Part>, parse: Bytes -> real, upperHex: bool, m: Member, i: nat, vp: nat, stack: seq<Frame>)
    requires MemberAt(json, m, i) && vp == i + |m.key| + 3 && IsContainer(m.value)
    requires 1 <= |stack| < |parts| && Matches(parts[|stack| - 1], m.key)
    ensures var c := Frame(Opener(m.value), 0);
      Round(json, parts, parse, upperHex, i, Frame('{', 0), stack) == Next(vp + 1, c, stack + [c])
  {
    MemberKeyRead(json, parts, parse, upperHex, m, i, stack);
    MemberValueInto(json, parts, parse, upperHex, m, i, stack);
  }

  /** Where the key and the value of member `j` laid out at `i` lie. */
  lemma {:induction false} MemberFacts(json: Bytes, i: nat, v: Json, j: nat)
    requires Good(v) && v.JObject? && j < |v.members| && Laid(json, i, Members(v, j))
    ensures MemberAt(json, v.members[j], i)
  {
    LaidAt(json, i, Members(v, j));
    MemberLayout(json, i, v, j);
    GoodMember(v, j);
  }

  /** Where element `j` laid out at `i` lies. */
  lemma {:induction false} ElemFacts(json: Bytes, i: nat, v: Json, j: nat)
    requires Good(v) && v.JArray? && j < |v.elems| && Laid(json, i, Elems(v, j))
    ensures var e := v.elems[j]; var end := i + |Render(e)|;
      Good(e) && At(json, i, Render(e)) && end < |json| && Stop(json[end])
  {
    LaidAt(json, i, Elems(v, j));
    ElemLayout(json, i, v, j);
    GoodElem(v, j);
  }

  /** An element's round goes straight to its value, keyed by its index. */
  lemma {:induction false} ElemRound(json: Bytes, parts: seq<Part>, parse: Bytes -> real, upperHex: bool, i: nat, c: nat, stack: seq<Frame>)
    requires i <= |json| && 1 <= |stack| <= |parts|
    ensures Round(json, parts, parse, upperHex, i, Frame('[', c), stack)
         == Proceed(json, parts, parse, upperHex, i, Matches(parts[|stack| - 1], Decimal(c)), Frame('[', c + 1), stack)
  {
  }

  /** Walking is resuming from one round. */
  lemma {:induction false} WalkRound(json: Bytes, parts: seq<Part>, parse: Bytes -> real, upperHex: bool, i: nat, f: Frame, stack: seq<Frame>)
    requires i <= |json| && 1 <= |stack| <= |parts|
    ensures Walk(json, parts, parse, upperHex, i, f, stack) == Resume(json, parts, parse, upperHex, Round(json, parts, parse, upperHex, i, f, stack))
  {
  }

  /** A round that moves on leaves the walk to go on from where it stops. */
  lemma {:induction false} WalkNext(json: Bytes, parts: seq<Part>, parse: Bytes -> real, upperHex: bool, i: nat, f: Frame, stack: seq<Frame>,
                                    i2: nat, f2: Frame, stack2: seq<Frame>)
    requires i <= |json| && 1 <= |stack| <= |parts|
    requires Round(json, parts, parse, upperHex, i, f, stack) == Next(i2, f2, stack2)
    ensures i2 <= |json| && 1 <= |stack2| <= |parts|
    ensures Walk(json, parts, parse, upperHex, i, f, stack) == Walk(json, parts, parse, upperHex, i2, f2, stack2)
  {
  }

  /** One step of the member lookup, by case. */
  lemma {:induction false} LookupMember(v: Json, j: nat, parts: seq<Part>, d: nat, parse: Bytes -> real)
    requires v.JObject? && j < |v.members| && d < |parts| && LookupMembers(v, j, parts, d, parse).Some?
    ensures var m := v.members[j]; var r := LookupMembers(v, j, parts, d, parse).value;
      (!Matches(parts[d], m.key) ==> LookupMembers(v, j + 1, parts, d, parse).Some? && r == LookupMembers(v, j + 1, parts, d, parse).value)
      && (Matches(parts[d], m.key) && d + 1 == |parts| ==> r == Expected(m.value, parse))
      && (Matches(parts[d], m.key) && d + 1 < |parts| ==>
            IsContainer(m.value) && LookupIn(m.value, parts, d + 1, parse).Some?
            && (LookupIn(m.value, parts, d + 1, parse).value != NotFound ==> r == LookupIn(m.value, parts, d + 1, parse).value)
            && (LookupIn(m.value, parts, d + 1, parse).value == NotFound ==>
                  LookupMembers(v, j + 1, parts, d, parse).Some? && r == LookupMembers(v, j + 1, parts, d, parse).value))
  {
  }

  /** One step of the element lookup, by case. */
  lemma {:induction false} LookupElem(v: Json, j: nat, c: nat, parts: seq<Part>, d: nat, parse: Bytes -> real)
    requires v.JArray? && j < |v.elems| && d < |parts| && LookupElems(v, j, c, parts, d, parse).Some?
    ensures var e := v.elems[j]; var r := LookupElems(v, j, c, parts, d, parse).value;
      (!Matches(parts[d], Decimal(c)) ==> LookupElems(v, j + 1, c + 1, parts, d, parse).Some? && r == LookupElems(v, j + 1, c + 1, parts, d, parse).value)
      && (Matches(parts[d], Decimal(c)) && d + 1 == |parts| ==> r == Expected(e, parse))
      && (Matches(parts[d], Decimal(c)) && d + 1 < |parts| ==>
            IsContainer(e) && LookupIn(e, parts, d + 1, parse).Some?
            && (LookupIn(e, parts, d + 1, parse).value != NotFound ==> r == LookupIn(e, parts, d + 1, parse).value)
            && (LookupIn(e, parts, d + 1, parse).value == NotFound ==>
                  LookupElems(v, j + 1, 0, parts, d, parse).Some? && r == LookupElems(v, j + 1, 0, parts, d, parse).value))
  {
  }

  /** The scan over a rendered container whose opening byte is at `p` and
      whose rendering ends before `q`, with the container's frame on top of
      the stack: it answers what the lookup answers, or, when that is
      `NotFound`, goes on after the close. */
  lemma {:induction false} ContainerWalk(json: Bytes, parts: seq<Part>, parse: Bytes -> real, upperHex: bool, v: Json, p: nat, q: nat, stack: seq<Frame>)
    requires Good(v) && IsContainer(v) && Laid(json, p, Render(v)) && q == p + |Render(v)|
    requires 1 <= |stack| <= |parts| && stack[|stack| - 1] == Frame(Opener(v), 0)
    requires LookupIn(v, parts, |stack| - 1, parse).Some?
    ensures Walk(json, parts, parse, upperHex, p + 1, Frame(Opener(v), 0), stack)
         == Settle(LookupIn(v, parts, |stack| - 1, parse).value, json, parts, parse, upperHex, q, stack)
    decreases v, 1, 0, 0
  {
    ContainerLaid(json, p, v);
    if v.JArray? {
      ElemsWalk(json, parts, parse, upperHex, v, 0, 0, p + 1, q, stack);
    } else {
      MembersWalk(json, parts, parse, upperHex, v, 0, p + 1, q, stack);
    }
  }

  /** The descent into a rendered container `e` at `vp` that a part before
      the last matched: the container's answer, or, when it has none, the
      read on from its end in the level it was found in. */
  lemma {:induction false} Descend(json: Bytes, parts: seq<Part>, parse: Bytes -> real, upperHex: bool, e: Json, vp: nat, end: nat, stack: seq<Frame>)
    requires Good(e) && IsContainer(e) && Laid(json, vp, Render(e)) && end == vp + |Render(e)|
    requires 1 <= |stack| < |parts| && LookupIn(e, parts, |stack|, parse).Some?
    ensures var c := Frame(Opener(e), 0); var r := LookupIn(e, parts, |stack|, parse).value;
      end <= |json| && Walk(json, parts, parse, upperHex, vp + 1, c, stack + [c])
        == if r != NotFound then r else Resume(json, parts, parse, upperHex, ToComma(json, parts, end, stack[|stack| - 1], stack))
    decreases e, 2, 0, 0
  {
    var c := Frame(Opener(e), 0);
    PushedTop(stack, c);
    ContainerWalk(json, parts, parse, upperHex, e, vp, end, stack + [c]);
    AfterClosePushed(json, parts, parse, upperHex, end, stack, c);
  }

  lemma PushedTop(stack: seq<Frame>, c: Frame)
    ensures |stack + [c]| - 1 == |stack| && (stack + [c])[|stack|] == c
  {
  }

  /** Closing a level pushed on `stack` reads on in the level below it. */
  lemma {:induction false} AfterClosePushed(json: Bytes, parts: seq<Part>, parse: Bytes -> real, upperHex: bool, q: nat, stack: seq<Frame>, c: Frame)
    requires q <= |json| + 1 && 1 <= |stack| < |parts|
    ensures AfterClose(json, parts, parse, upperHex, q, stack + [c])
         == Resume(json, parts, parse, upperHex, ToComma(json, parts, q, stack[|stack| - 1], stack))
  {
    var st := stack + [c];
    assert |st| != 1 && |st| - 1 == |stack|;
    assert st[..|st| - 1] == stack;
  }

  /** The scan over the members of `v` from `j` on, rendered at `i` and
      ending before `q`. */
  lemma {:induction false} MembersWalk(json: Bytes, parts: seq<Part>, parse: Bytes -> real, upperHex: bool, v: Json, j: nat, i: nat, q: nat, stack: seq<Frame>)
    requires Good(v) && v.JObject? && j < |v.members| && Laid(json, i, Members(v, j)) && q == i + |Members(v, j)|
    requires 1 <= |stack| <= |parts| && stack[|stack| - 1] == Frame('{', 0)
    requires LookupMembers(v, j, parts, |stack| - 1, parse).Some?
    ensures Walk(json, parts, parse, upperHex, i, Frame('{', 0), stack)
         == Settle(LookupMembers(v, j, parts, |stack| - 1, parse).value, json, parts, parse, upperHex, q, stack)
    decreases v, 0, |v.members| - j, 3
  {
    if !Matches(parts[|stack| - 1], v.members[j].key) {
      MembersSkip(json, parts, parse, upperHex, v, j, i, q, stack);
    } else if |stack| == |parts| {
      MembersHit(json, parts, parse, upperHex, v, j, i, q, stack);
    } else {
      MembersDescend(json, parts, parse, upperHex, v, j, i, q, stack);
    }
  }

  /** `MembersWalk` when the key of member `j` does not match. */
  lemma {:induction false} MembersSkip(json: Bytes, parts: seq<Part>, parse: Bytes -> real, upperHex: bool, v: Json, j: nat, i: nat, q: nat, stack: seq<Frame>)
    requires Good(v) && v.JObject? && j < |v.members| && Laid(json, i, Members(v, j)) && q == i + |Members(v, j)|
    requires 1 <= |stack| <= |parts| && stack[|stack| - 1] == Frame('{', 0)
    requires LookupMembers(v, j, parts, |stack| - 1, parse).Some? && !Matches(parts[|stack| - 1], v.members[j].key)
    ensures Walk(json, parts, parse, upperHex, i, Frame('{', 0), stack)
         == Settle(LookupMembers(v, j, parts, |stack| - 1, parse).value, json, parts, parse, upperHex, q, stack)
    decreases v, 0, |v.members| - j, 2
  {
    var end := i + |v.members[j].key| + 3 + |Render(v.members[j].value)|;
    LookupMember(v, j, parts, |stack| - 1, parse);
    MemberMissWalk(json, parts, parse, upperHex, v, j, i, end, stack);
    MemberTail(json, parts, parse, upperHex, v, j, i, end, q, stack);
  }

  /** `MembersWalk` when the last part matches the key of member `j`. */
  lemma {:induction false} MembersHit(json: Bytes, parts: seq<Part>, parse: Bytes -> real, upperHex: bool, v: Json, j: nat, i: nat, q: nat, stack: seq<Frame>)
    requires Good(v) && v.JObject? && j < |v.members| && Laid(json, i, Members(v, j)) && q == i + |Members(v, j)|
    requires 1 <= |stack| == |parts| && stack[|stack| - 1] == Frame('{', 0)
    requires LookupMembers(v, j, parts, |stack| - 1, parse).Some? && Matches(parts[|stack| - 1], v.members[j].key)
    ensures Walk(json, parts, parse, upperHex, i, Frame('{', 0), stack)
         == Settle(LookupMembers(v, j, parts, |stack| - 1, parse).value, json, parts, parse, upperHex, q, stack)
  {
    LookupMember(v, j, parts, |stack| - 1, parse);
    MemberHitWalk(json, parts, parse, upperHex, v, j, i, stack);
  }

  /** `MembersWalk` when a part before the last matches the key of member `j`. */
  lemma {:induction false} MembersDescend(json: Bytes, parts: seq<Part>, parse: Bytes -> real, upperHex: bool, v: Json, j: nat, i: nat, q: nat, stack: seq<Frame>)
    requires Good(v) && v.JObject? && j < |v.members| && Laid(json, i, Members(v, j)) && q == i + |Members(v, j)|
    requires 1 <= |stack| < |parts| && stack[|stack| - 1] == Frame('{', 0)
    requires LookupMembers(v, j, parts, |stack| - 1, parse).Some? && Matches(parts[|stack| - 1], v.members[j].key)
    ensures Walk(json, parts, parse, upperHex, i, Frame('{', 0), stack)
         == Settle(LookupMembers(v, j, parts, |stack| - 1, parse).value, json, parts, parse, upperHex, q, stack)
    decreases v, 0, |v.members| - j, 2
  {
    var m := v.members[j];
    var end := i + |m.key| + 3 + |Render(m.value)|;
    LookupMember(v, j, parts, |stack| - 1, parse);
    MemberDescendWalk(json, parts, parse, upperHex, v, j, i, end, stack);
    if LookupIn(m.value, parts, |stack|, parse).value == NotFound {
      MemberTail(json, parts, parse, upperHex, v, j, i, end, q, stack);
    }
  }

  /** The walk from a member whose key does not match reads on after its
      value, which ends before `end`. */
  lemma {:induction false} MemberMissWalk(json: Bytes, parts: seq<Part>, parse: Bytes -> real, upperHex: bool, v: Json, j: nat, i: nat, end: nat, stack: seq<Frame>)
    requires Good(v) && v.JObject? && j < |v.members| && Laid(json, i, Members(v, j))
    requires end == i + |v.members[j].key| + 3 + |Render(v.members[j].value)|
    requires 1 <= |stack| <= |parts| && !Matches(parts[|stack| - 1], v.members[j].key)
    ensures end < |json|
    ensures Walk(json, parts, parse, upperHex, i, Frame('{', 0), stack) == Resume(json, parts, parse, upperHex, ToComma(json, parts, end, Frame('{', 0), stack))
  {
    MemberMissRound(json, parts, parse, upperHex, v, j, i, end, stack);
    WalkRound(json, parts, parse, upperHex, i, Frame('{', 0), stack);
  }

  lemma {:induction false} MemberMissRound(json: Bytes, parts: seq<Part>, parse: Bytes -> real, upperHex: bool, v: Json, j: nat, i: nat, end: nat, stack: seq<Frame>)
    requires Good(v) && v.JObject? && j < |v.members| && Laid(json, i, Members(v, j))
    requires end == i + |v.members[j].key| + 3 + |Render(v.members[j].value)|
    requires 1 <= |stack| <= |parts| && !Matches(parts[|stack| - 1], v.members[j].key)
    ensures end < |json| && Round(json, parts, parse, upperHex, i, Frame('{', 0), stack) == ToComma(json, parts, end, Frame('{', 0), stack)
  {
    MemberFacts(json, i, v, j);
    MemberMiss(json, parts, parse, upperHex, v.members[j], i, end, stack);
  }

  /** The walk from a member that the last part matches answers its value. */
  lemma {:induction false} MemberHitWalk(json: Bytes, parts: seq<Part>, parse: Bytes -> real, upperHex: bool, v: Json, j: nat, i: nat, stack: seq<Frame>)
    requires Good(v) && v.JObject? && j < |v.members| && Laid(json, i, Members(v, j))
    requires 1 <= |stack| == |parts| && Matches(parts[|stack| - 1], v.members[j].key)
    ensures Walk(json, parts, parse, upperHex, i, Frame('{', 0), stack) == Expected(v.members[j].value, parse)
  {
    MemberHitRound(json, parts, parse, upperHex, v, j, i, stack);
    WalkRound(json, parts, parse, upperHex, i, Frame('{', 0), stack);
  }

  lemma {:induction false} MemberHitRound(json: Bytes, parts: seq<Part>, parse: Bytes -> real, upperHex: bool, v: Json, j: nat, i: nat, stack: seq<Frame>)
    requires Good(v) && v.JObject? && j < |v.members| && Laid(json, i, Members(v, j))
    requires 1 <= |stack| == |parts| && Matches(parts[|stack| - 1], v.members[j].key)
    ensures i < |json| && Round(json, parts, parse, upperHex, i, Frame('{', 0), stack) == Done(Expected(v.members[j].value, parse))
  {
    MemberFacts(json, i, v, j);
    MemberHit(json, parts, parse, upperHex, v.members[j], i, stack);
  }

  /** The walk from a member that a part before the last matches, when its
      value is a container: the descent's answer, or the read on after it. */
  lemma {:induction false} MemberDescendWalk(json: Bytes, parts: seq<Part>, parse: Bytes -> real, upperHex: bool, v: Json, j: nat, i: nat, end: nat, stack: seq<Frame>)
    requires Good(v) && v.JObject? && j < |v.members| && Laid(json, i, Members(v, j))
    requires end == i + |v.members[j].key| + 3 + |Render(v.members[j].value)|
    requires 1 <= |stack| < |parts| && stack[|stack| - 1] == Frame('{', 0) && Matches(parts[|stack| - 1], v.members[j].key)
    requires IsContainer(v.members[j].value) && LookupIn(v.members[j].value, parts, |stack|, parse).Some?
    ensures var r := LookupIn(v.members[j].value, parts, |stack|, parse).value;
      end < |json| && Walk(json, parts, parse, upperHex, i, Frame('{', 0), stack)
        == if r != NotFound then r else Resume(json, parts, parse, upperHex, ToComma(json, parts, end, Frame('{', 0), stack))
    decreases v, 0, |v.members| - j, 1
  {
    var vp := i + |v.members[j].key| + 3;
    MemberEnter(json, parts, parse, upperHex, v, j, i, vp, stack);
    DescendMember(json, parts, parse, upperHex, v, j, i, vp, end, stack);
  }

  /** A member that a part before the last matches, whose value is a
      container at `vp`: the round goes on inside the value. */
  lemma {:induction false} MemberEnter(json: Bytes, parts: seq<Part>, parse: Bytes -> real, upperHex: bool, v: Json, j: nat, i: nat, vp: nat, stack: seq<Frame>)
    requires Good(v) && v.JObject? && j < |v.members| && Laid(json, i, Members(v, j))
    requires vp == i + |v.members[j].key| + 3
    requires 1 <= |stack| < |parts| && Matches(parts[|stack| - 1], v.members[j].key) && IsContainer(v.members[j].value)
    ensures var c := Frame(Opener(v.members[j].value), 0);
      Walk(json, parts, parse, upperHex, i, Frame('{', 0), stack) == Walk(json, parts, parse, upperHex, vp + 1, c, stack + [c])
  {
    MemberFacts(json, i, v, j);
    MemberWalkInto(json, parts, parse, upperHex, v.members[j], i, vp, stack);
  }

  /** `MemberInto` for the walk. */
  lemma {:induction false} MemberWalkInto(json: Bytes, parts: seq<Part>, parse: Bytes -> real, upperHex: bool, m: Member, i: nat, vp: nat, stack: seq<Frame>)
    requires MemberAt(json, m, i) && vp == i + |m.key| + 3 && IsContainer(m.value)
    requires 1 <= |stack| < |parts| && Matches(parts[|stack| - 1], m.key)
    ensures var c := Frame(Opener(m.value), 0);
      vp + 1 <= |json| && Walk(json, parts, parse, upperHex, i, Frame('{', 0), stack) == Walk(json, parts, parse, upperHex, vp + 1, c, stack + [c])
  {
    var c := Frame(Opener(m.value), 0);
    var f := Frame('{', 0);
    MemberInto(json, parts, parse, upperHex, m, i, vp, stack);
    assert i <= |json| && Round(json, parts, parse, upperHex, i, f, stack) == Next(vp + 1, c, stack + [c]);
    WalkNext(json, parts, parse, upperHex, i, f, stack, vp + 1, c, stack + [c]);
  }

  /** `Descend` into the value of member `j`, which starts at `vp`. */
  lemma {:induction false} DescendMember(json: Bytes, parts: seq<Part>, parse: Bytes -> real, upperHex: bool, v: Json, j: nat, i: nat, vp: nat, end: nat, stack: seq<Frame>)
    requires Good(v) && v.JObject? && j < |v.members| && Laid(json, i, Members(v, j))
    requires vp == i + |v.members[j].key| + 3 && end == vp + |Render(v.members[j].value)|
    requires IsContainer(v.members[j].value)
    requires 1 <= |stack| < |parts| && LookupIn(v.members[j].value, parts, |stack|, parse).Some?
    ensures var e := v.members[j].value; var c := Frame(Opener(e), 0); var r := LookupIn(e, parts, |stack|, parse).value;
      end < |json| && Walk(json, parts, parse, upperHex, vp + 1, c, stack + [c])
        == if r != NotFound then r else Resume(json, parts, parse, upperHex, ToComma(json, parts, end, stack[|stack| - 1], stack))
    decreases v, 0, |v.members| - j, 0
  {
    MemberLaid(json, i, v, j);
    GoodMember(v, j);
    assert v.members[j] in v.members;
    Descend(json, parts, parse, upperHex, v.members[j].value, vp, end, stack);
  }

  /** After the value of member `j`, which ends before `end`: a `,` leads
      to the next member, the closing `}` ends the level before `q`. */
  lemma {:induction false} MemberTail(json: Bytes, parts: seq<Part>, parse: Bytes -> real, upperHex: bool, v: Json, j: nat, i: nat, end: nat, q: nat, stack: seq<Frame>)
    requires Good(v) && v.JObject? && j < |v.members| && Laid(json, i, Members(v, j))
    requires end == i + |v.members[j].key| + 3 + |Render(v.members[j].value)| && q == i + |Members(v, j)|
    requires 1 <= |stack| <= |parts| && stack[|stack| - 1] == Frame('{', 0)
    requires LookupMembers(v, j + 1, parts, |stack| - 1, parse).Some?
    ensures end < |json|
    ensures Resume(json, parts, parse, upperHex, ToComma(json, parts, end, Frame('{', 0), stack))
         == Settle(LookupMembers(v, j + 1, parts, |stack| - 1, parse).value, json, parts, parse, upperHex, q, stack)
    decreases v, 0, |v.members| - j - 1, 5
  {
    if j + 1 < |v.members| {
      MemberComma(json, parts, parse, upperHex, v, j, i, end, q, stack);
    } else {
      MemberClose(json, parts, parse, upperHex, v, j, i, end, q, stack);
    }
  }

  /** A `,` after entry `j`: the walk goes on with the next entry. */
  lemma {:induction false} MemberComma(json: Bytes, parts: seq<Part>, parse: Bytes -> real, upperHex: bool, v: Json, j: nat, i: nat, end: nat, q: nat, stack: seq<Frame>)
    requires Good(v) && v.JObject? && j < |v.members| && Laid(json, i, Members(v, j))
    requires end == i + |v.members[j].key| + 3 + |Render(v.members[j].value)| && q == i + |Members(v, j)|
    requires 1 <= |stack| <= |parts| && stack[|stack| - 1] == Frame('{', 0)
    requires LookupMembers(v, j + 1, parts, |stack| - 1, parse).Some?
    requires j + 1 < |v.members|
    ensures end < |json|
    ensures Resume(json, parts, parse, upperHex, ToComma(json, parts, end, Frame('{', 0), stack))
         == Settle(LookupMembers(v, j + 1, parts, |stack| - 1, parse).value, json, parts, parse, upperHex, q, stack)
    decreases v, 0, |v.members| - j - 1, 4
  {
    MemberCommaLaid(json, i, v, j, end, q);
    MembersWalk(json, parts, parse, upperHex, v, j + 1, end + 1, q, stack);
    CommaAt(json, parts, parse, upperHex, end, Frame('{', 0), stack);
  }

  /** A member followed by a `,` and the rest of the members. */
  lemma {:induction false} MemberCommaLaid(json: Bytes, i: nat, v: Json, j: nat, end: nat, q: nat)
    requires v.JObject? && j + 1 < |v.members| && Laid(json, i, Members(v, j))
    requires end == i + |v.members[j].key| + 3 + |Render(v.members[j].value)| && q == i + |Members(v, j)|
    ensures end < |json| && json[end] == ',' && Laid(json, end + 1, Members(v, j + 1)) && q == end + 1 + |Members(v, j + 1)|
  {
    MemberLaid(json, i, v, j);
  }

  /** The closing bracket after the last entry. */
  lemma {:induction false} MemberClose(json: Bytes, parts: seq<Part>, parse: Bytes -> real, upperHex: bool, v: Json, j: nat, i: nat, end: nat, q: nat, stack: seq<Frame>)
    requires Good(v) && v.JObject? && j < |v.members| && Laid(json, i, Members(v, j))
    requires end == i + |v.members[j].key| + 3 + |Render(v.members[j].value)| && q == i + |Members(v, j)|
    requires 1 <= |stack| <= |parts| && stack[|stack| - 1] == Frame('{', 0)
    requires LookupMembers(v, j + 1, parts, |stack| - 1, parse).Some?
    requires j + 1 == |v.members|
    ensures end < |json|
    ensures Resume(json, parts, parse, upperHex, ToComma(json, parts, end, Frame('{', 0), stack))
         == Settle(LookupMembers(v, j + 1, parts, |stack| - 1, parse).value, json, parts, parse, upperHex, q, stack)
  {
    MemberLaid(json, i, v, j);
    CloseAt(json, parts, parse, upperHex, end, Frame('{', 0), stack);
  }

  /** The scan over the elements of `v` from `j` on, rendered at `i` and
      ending before `q`, with `c` element keys produced so far. */
  lemma {:induction false} ElemsWalk(json: Bytes, parts: seq<Part>, parse: Bytes -> real, upperHex: bool, v: Json, j: nat, c: nat, i: nat, q: nat, stack: seq<Frame>)
    requires Good(v) && v.JArray? && j < |v.elems| && Laid(json, i, Elems(v, j)) && q == i + |Elems(v, j)|
    requires 1 <= |stack| <= |parts| && stack[|stack| - 1] == Frame('[', 0)
    requires LookupElems(v, j, c, parts, |stack| - 1, parse).Some?
    ensures Walk(json, parts, parse, upperHex, i, Frame('[', c), stack)
         == Settle(LookupElems(v, j, c, parts, |stack| - 1, parse).value, json, parts, parse, upperHex, q, stack)
    decreases v, 0, |v.elems| - j, 3
  {
    if !Matches(parts[|stack| - 1], Decimal(c)) {
      ElemsSkip(json, parts, parse, upperHex, v, j, c, i, q, stack);
    } else if |stack| == |parts| {
      ElemsHit(json, parts, parse, upperHex, v, j, c, i, q, stack);
    } else {
      ElemsDescend(json, parts, parse, upperHex, v, j, c, i, q, stack);
    }
  }

  /** `ElemsWalk` when the index of element `j` does not match. */
  lemma {:induction false} ElemsSkip(json: Bytes, parts: seq<Part>, parse: Bytes -> real, upperHex: bool, v: Json, j: nat, c: nat, i: nat, q: nat, stack: seq<Frame>)
    requires Good(v) && v.JArray? && j < |v.elems| && Laid(json, i, Elems(v, j)) && q == i + |Elems(v, j)|
    requires 1 <= |stack| <= |parts| && stack[|stack| - 1] == Frame('[', 0)
    requires LookupElems(v, j, c, parts, |stack| - 1, parse).Some? && !Matches(parts[|stack| - 1], Decimal(c))
    ensures Walk(json, parts, parse, upperHex, i, Frame('[', c), stack)
         == Settle(LookupElems(v, j, c, parts, |stack| - 1, parse).value, json, parts, parse, upperHex, q, stack)
    decreases v, 0, |v.elems| - j, 2
  {
    var end := i + |Render(v.elems[j])|;
    LookupElem(v, j, c, parts, |stack| - 1, parse);
    ElemMissWalk(json, parts, parse, upperHex, v, j, c, i, end, stack);
    ElemTail(json, parts, parse, upperHex, v, j, c + 1, i, end, q, stack);
  }

  /** `ElemsWalk` when the last part matches the index of element `j`. */
  lemma {:induction false} ElemsHit(json: Bytes, parts: seq<Part>, parse: Bytes -> real, upperHex: bool, v: Json, j: nat, c: nat, i: nat, q: nat, stack: seq<Frame>)
    requires Good(v) && v.JArray? && j < |v.elems| && Laid(json, i, Elems(v, j)) && q == i + |Elems(v, j)|
    requires 1 <= |stack| == |parts| && stack[|stack| - 1] == Frame('[', 0)
    requires LookupElems(v, j, c, parts, |stack| - 1, parse).Some? && Matches(parts[|stack| - 1], Decimal(c))
    ensures Walk(json, parts, parse, upperHex, i, Frame('[', c), stack)
         == Settle(LookupElems(v, j, c, parts, |stack| - 1, parse).value, json, parts, parse, upperHex, q, stack)
  {
    LookupElem(v, j, c, parts, |stack| - 1, parse);
    ElemHitWalk(json, parts, parse, upperHex, v, j, c, i, stack);
  }

  /** `ElemsWalk` when a part before the last matches the index of element `j`. */
  lemma {:induction false} ElemsDescend(json: Bytes, parts: seq<Part>, parse: Bytes -> real, upperHex: bool, v: Json, j: nat, c: nat, i: nat, q: nat, stack: seq<Frame>)
    requires Good(v) && v.JArray? && j < |v.elems| && Laid(json, i, Elems(v, j)) && q == i + |Elems(v, j)|
    requires 1 <= |stack| < |parts| && stack[|stack| - 1] == Frame('[', 0)
    requires LookupElems(v, j, c, parts, |stack| - 1, parse).Some? && Matches(parts[|stack| - 1], Decimal(c))
    ensures Walk(json, parts, parse, upperHex, i, Frame('[', c), stack)
         == Settle(LookupElems(v, j, c, parts, |stack| - 1, parse).value, json, parts, parse, upperHex, q, stack)
    decreases v, 0, |v.elems| - j, 2
  {
    var e := v.elems[j];
    var end := i + |Render(e)|;
    LookupElem(v, j, c, parts, |stack| - 1, parse);
    ElemDescendWalk(json, parts, parse, upperHex, v, j, c, i, end, stack);
    if LookupIn(e, parts, |stack|, parse).value == NotFound {
      ElemTail(json, parts, parse, upperHex, v, j, 0, i, end, q, stack);
    }
  }

  /** The walk from an element whose index does not match reads on after
      it, ending before `end`, one key further. */
  lemma {:induction false} ElemMissWalk(json: Bytes, parts: seq<Part>, parse: Bytes -> real, upperHex: bool, v: Json, j: nat, c: nat, i: nat, end: nat, stack: seq<Frame>)
    requires Good(v) && v.JArray? && j < |v.elems| && Laid(json, i, Elems(v, j)) && end == i + |Render(v.elems[j])|
    requires 1 <= |stack| <= |parts| && !Matches(parts[|stack| - 1], Decimal(c))
    ensures end < |json|
    ensures Walk(json, parts, parse, upperHex, i, Frame('[', c), stack) == Resume(json, parts, parse, upperHex, ToComma(json, parts, end, Frame('[', c + 1), stack))
  {
    ElemMissRound(json, parts, parse, upperHex, v, j, c, i, end, stack);
    WalkRound(json, parts, parse, upperHex, i, Frame('[', c), stack);
  }

  lemma {:induction false} ElemMissRound(json: Bytes, parts: seq<Part>, parse: Bytes -> real, upperHex: bool, v: Json, j: nat, c: nat, i: nat, end: nat, stack: seq<Frame>)
    requires Good(v) && v.JArray? && j < |v.elems| && Laid(json, i, Elems(v, j)) && end == i + |Render(v.elems[j])|
    requires 1 <= |stack| <= |parts| && !Matches(parts[|stack| - 1], Decimal(c))
    ensures end < |json| && Round(json, parts, parse, upperHex, i, Frame('[', c), stack) == ToComma(json, parts, end, Frame('[', c + 1), stack)
  {
    ElemFacts(json, i, v, j);
    ElemRound(json, parts, parse, upperHex, i, c, stack);
    ProceedSkip(json, parts, parse, upperHex, i, i, end, v.elems[j], Frame('[', c + 1), stack);
  }

  /** The walk from an element that the last part matches answers it. */
  lemma {:induction false} ElemHitWalk(json: Bytes, parts: seq<Part>, parse: Bytes -> real, upperHex: bool, v: Json, j: nat, c: nat, i: nat, stack: seq<Frame>)
    requires Good(v) && v.JArray? && j < |v.elems| && Laid(json, i, Elems(v, j))
    requires 1 <= |stack| == |parts| && Matches(parts[|stack| - 1], Decimal(c))
    ensures Walk(json, parts, parse, upperHex, i, Frame('[', c), stack) == Expected(v.elems[j], parse)
  {
    ElemHitRound(json, parts, parse, upperHex, v, j, c, i, stack);
    WalkRound(json, parts, parse, upperHex, i, Frame('[', c), stack);
  }

  lemma {:induction false} ElemHitRound(json: Bytes, parts: seq<Part>, parse: Bytes -> real, upperHex: bool, v: Json, j: nat, c: nat, i: nat, stack: seq<Frame>)
    requires Good(v) && v.JArray? && j < |v.elems| && Laid(json, i, Elems(v, j))
    requires 1 <= |stack| == |parts| && Matches(parts[|stack| - 1], Decimal(c))
    ensures i < |json| && Round(json, parts, parse, upperHex, i, Frame('[', c), stack) == Done(Expected(v.elems[j], parse))
  {
    ElemFacts(json, i, v, j);
    ElemRound(json, parts, parse, upperHex, i, c, stack);
    ProceedHit(json, parts, parse, upperHex, i, i, v.elems[j], Frame('[', c + 1), stack);
  }

  /** The walk from a container element that a part before the last
      matches: the descent's answer, or the read on after it with the
      level's frame as stored. */
  lemma {:induction false} ElemDescendWalk(json: Bytes, parts: seq<Part>, parse: Bytes -> real, upperHex: bool, v: Json, j: nat, c: nat, i: nat, end: nat, stack: seq<Frame>)
    requires Good(v) && v.JArray? && j < |v.elems| && Laid(json, i, Elems(v, j)) && end == i + |Render(v.elems[j])|
    requires 1 <= |stack| < |parts| && stack[|stack| - 1] == Frame('[', 0) && Matches(parts[|stack| - 1], Decimal(c))
    requires IsContainer(v.elems[j]) && LookupIn(v.elems[j], parts, |stack|, parse).Some?
    ensures var r := LookupIn(v.elems[j], parts, |stack|, parse).value;
      end < |json| && Walk(json, parts, parse, upperHex, i, Frame('[', c), stack)
        == if r != NotFound then r else Resume(json, parts, parse, upperHex, ToComma(json, parts, end, Frame('[', 0), stack))
    decreases v, 0, |v.elems| - j, 0
  {
    var e := v.elems[j];
    var f := Frame(Opener(e), 0);
    ElemEnter(json, parts, parse, upperHex, v, j, c, i, stack);
    WalkNext(json, parts, parse, upperHex, i, Frame('[', c), stack, i + 1, f, stack + [f]);
    ElemLaid(json, i, v, j);
    GoodElem(v, j);
    Descend(json, parts, parse, upperHex, e, i, end, stack);
  }

  /** An element that a part before the last matches, when it is a
      container: the round goes on inside it. */
  lemma {:induction false} ElemEnter(json: Bytes, parts: seq<Part>, parse: Bytes -> real, upperHex: bool, v: Json, j: nat, c: nat, i: nat, stack: seq<Frame>)
    requires Good(v) && v.JArray? && j < |v.elems| && Laid(json, i, Elems(v, j))
    requires 1 <= |stack| < |parts| && Matches(parts[|stack| - 1], Decimal(c)) && IsContainer(v.elems[j])
    ensures var f := Frame(Opener(v.elems[j]), 0);
      Round(json, parts, parse, upperHex, i, Frame('[', c), stack) == Next(i + 1, f, stack + [f])
  {
    ElemFacts(json, i, v, j);
    ElemRound(json, parts, parse, upperHex, i, c, stack);
    ProceedDescend(json, parts, parse, upperHex, i, i, v.elems[j], Frame('[', c + 1), stack);
  }

  /** After element `j`, which ends before `end`, with `c` keys produced:
      a `,` leads to the next element, the closing `]` ends the level
      before `q`. */
  lemma {:induction false} ElemTail(json: Bytes, parts: seq<Part>, parse: Bytes -> real, upperHex: bool, v: Json, j: nat, c: nat, i: nat, end: nat, q: nat, stack: seq<Frame>)
    requires Good(v) && v.JArray? && j < |v.elems| && Laid(json, i, Elems(v, j))
    requires end == i + |Render(v.elems[j])| && q == i + |Elems(v, j)|
    requires 1 <= |stack| <= |parts| && stack[|stack| - 1] == Frame('[', 0)
    requires LookupElems(v, j + 1, c, parts, |stack| - 1, parse).Some?
    ensures end < |json|
    ensures Resume(json, parts, parse, upperHex, ToComma(json, parts, end, Frame('[', c), stack))
         == Settle(LookupElems(v, j + 1, c, parts, |stack| - 1, parse).value, json, parts, parse, upperHex, q, stack)
    decreases v, 0, |v.elems| - j - 1, 5
  {
    if j + 1 < |v.elems| {
      ElemComma(json, parts, parse, upperHex, v, j, c, i, end, q, stack);
    } else {
      ElemClose(json, parts, parse, upperHex, v, j, c, i, end, q, stack);
    }
  }

  /** A `,` after entry `j`: the walk goes on with the next entry. */
  lemma {:induction false} ElemComma(json: Bytes, parts: seq<Part>, parse: Bytes -> real, upperHex: bool, v: Json, j: nat, c: nat, i: nat, end: nat, q: nat, stack: seq<Frame>)
    requires Good(v) && v.JArray? && j < |v.elems| && Laid(json, i, Elems(v, j))
    requires end == i + |Render(v.elems[j])| && q == i + |Elems(v, j)|
    requires 1 <= |stack| <= |parts| && stack[|stack| - 1] == Frame('[', 0)
    requires LookupElems(v, j + 1, c, parts, |stack| - 1, parse).Some?
    requires j + 1 < |v.elems|
    ensures end < |json|
    ensures Resume(json, parts, parse, upperHex, ToComma(json, parts, end, Frame('[', c), stack))
         == Settle(LookupElems(v, j + 1, c, parts, |stack| - 1, parse).value, json, parts, parse, upperHex, q, stack)
    decreases v, 0, |v.elems| - j - 1, 4
  {
    ElemCommaLaid(json, i, v, j, end, q);
    ElemsWalk(json, parts, parse, upperHex, v, j + 1, c, end + 1, q, stack);
    CommaAt(json, parts, parse, upperHex, end, Frame('[', c), stack);
  }

  /** An element followed by a `,` and the rest of the elements. */
  lemma {:induction false} ElemCommaLaid(json: Bytes, i: nat, v: Json, j: nat, end: nat, q: nat)
    requires v.JArray? && j + 1 < |v.elems| && Laid(json, i, Elems(v, j))
    requires end == i + |Render(v.elems[j])| && q == i + |Elems(v, j)|
    ensures end < |json| && json[end] == ',' && Laid(json, end + 1, Elems(v, j + 1)) && q == end + 1 + |Elems(v, j + 1)|
  {
    ElemLaid(json, i, v, j);
  }

  /** The closing bracket after the last entry. */
  lemma {:induction false} ElemClose(json: Bytes, parts: seq<Part>, parse: Bytes -> real, upperHex: bool, v: Json, j: nat, c: nat, i: nat, end: nat, q: nat, stack: seq<Frame>)
    requires Good(v) && v.JArray? && j < |v.elems| && Laid(json, i, Elems(v, j))
    requires end == i + |Render(v.elems[j])| && q == i + |Elems(v, j)|
    requires 1 <= |stack| <= |parts| && stack[|stack| - 1] == Frame('[', 0)
    requires LookupElems(v, j + 1, c, parts, |stack| - 1, parse).Some?
    requires j + 1 == |v.elems|
    ensures end < |json|
    ensures Resume(json, parts, parse, upperHex, ToComma(json, parts, end, Frame('[', c), stack))
         == Settle(LookupElems(v, j + 1, c, parts, |stack| - 1, parse).value, json, parts, parse, upperHex, q, stack)
  {
    ElemLaid(json, i, v, j);
    CloseAt(json, parts, parse, upperHex, end, Frame('[', c), stack);
  }

  // ---------------------------------------------------------------------
  // Whole documents.

  /** The first delimiter of a rendered container is its opening bracket. */
  lemma StartRendered(v: Json)
    requires IsContainer(v)
    ensures Start(Render(v)) == Some((Opener(v), 1))
  {
    assert NotSpace(Render(v)[0]);
  }

  /** A document is laid out at its own start. */
  lemma WholeLaid(json: Bytes)
    ensures Laid(json, 0, json)
  {
    LaidAt(json, 0, json);
  }

  /** `Get` over the compact rendering of a document answers what the tree
      lookup answers, whenever the lookup is defined. */
  lemma QueryAgrees(v: Json, path: Bytes, parse: Bytes -> real, upperHex: bool)
    requires Good(v) && IsContainer(v) && |path| > 0 && Split(path).Some?
    requires LookupIn(v, Split(path).value, 0, parse).Some?
    ensures Query(Render(v), path, parse, upperHex) == LookupIn(v, Split(path).value, 0, parse).value
  {
    var json := Render(v);
    var parts := Split(path).value;
    StartRendered(v);
    QueryStarts(json, path, parse, upperHex, parts, Opener(v), 1);
    WholeLaid(json);
    ContainerWalk(json, parts, parse, upperHex, v, 0, |json|, [Frame(Opener(v), 0)]);
  }

  /** `QueryAgrees` for a path split into `parts` whose lookup gives `r`. */
  lemma QueryGives(v: Json, path: Bytes, parts: seq<Part>, r: Result, parse: Bytes -> real, upperHex: bool)
    requires Good(v) && IsContainer(v) && |path| > 0 && Split(path) == Some(parts)
    requires LookupIn(v, parts, 0, parse) == Some(r)
    ensures Query(Render(v), path, parse, upperHex) == r
  {
    QueryAgrees(v, path, parse, upperHex);
  }

  lemma SplitHash()
    ensures Split("#") == Some([Part(false, "#")])
  {
    var h: Bytes := "#";
    assert h[0] == '#' && [] + [h[0]] == h && |h| == 1;
    assert SplitFrom(h, 0, [], false, false, []) == SplitFrom(h, 1, h, false, false, []);
    assert SplitFrom(h, 1, h, false, false, []) == Some([] + [Part(false, h)]);
    assert [] + [Part(false, h)] == [Part(false, "#")];
  }

  /** `#` on an array with elements gives their number. */
  lemma ArrayCount(v: Json, parse: Bytes -> real, upperHex: bool)
    requires Good(v) && v.JArray?
    ensures Query(Render(v), "#", parse, upperHex) == Count(|v.elems|)
  {
    SplitHash();
    CountElems(v, 0, 0, [Part(false, "#")], 0, parse);
    QueryAgrees(v, "#", parse, upperHex);
  }

  /** A path that is the decimal index `n` of an element gives that element. */
  lemma ArrayIndex(v: Json, path: Bytes, n: nat, parse: Bytes -> real, upperHex: bool)
    requires Good(v) && v.JArray? && n < |v.elems| && Split(path) == Some([Part(false, Decimal(n))])
    ensures Query(Render(v), path, parse, upperHex) == Expected(v.elems[n], parse)
  {
    var parts := [Part(false, Decimal(n))];
    forall k | 0 <= k < n
      ensures !Matches(parts[0], Decimal(k))
    {
      if Decimal(k) == Decimal(n) {
        DecimalInjective(k, n);
      }
    }
    FirstElem(v, 0, n, parts, 0, parse);
    QueryAgrees(v, path, parse, upperHex);
  }

  /** A one-part path gives the value of the first member whose key it
      matches: a duplicate key later in the object is never reached. */
  lemma FirstKeyWins(v: Json, path: Bytes, p: Part, j: nat, parse: Bytes -> real, upperHex: bool)
    requires Good(v) && v.JObject? && j < |v.members| && |path| > 0 && Split(path) == Some([p])
    requires forall k :: 0 <= k < j ==> !Matches(p, v.members[k].key)
    requires Matches(p, v.members[j].key)
    ensures Query(Render(v), path, parse, upperHex) == Expected(v.members[j].value, parse)
  {
    FirstMember(v, 0, j, [p], 0, parse);
    QueryAgrees(v, path, parse, upperHex);
  }
}
