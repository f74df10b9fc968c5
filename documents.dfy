/** JSON documents as trees, their compact rendering, and a lookup of a
    split path on the tree.  The lookup is the reference that the byte scan
    of `Get` is proved against: it walks members and elements in document
    order, keys array elements by their decimal index, and answers `#` with
    the element count, with the same first-match and fall-through rules the
    scan has. */
module Documents {
  import opened Text
  import opened Results
  import opened Paths
  import opened Scanner
  import opened Search

  datatype Json =
    | JNull
    | JTrue
    | JFalse
    | JNumber(text: Bytes)
    | JString(text: Bytes)
    | JArray(elems: seq<Json>)
    | JObject(members: seq<Member>)

  datatype Member = Member(key: Bytes, value: Json)

  predicate IsContainer(v: Json) { v.JArray? || v.JObject? }

  /** The byte that opens a container. */
  function Opener(v: Json): (c: Byte)
    requires IsContainer(v)
    ensures IsBlock(c)
  {
    if v.JArray? then '[' else '{'
  }

  /** String contents that need no escaping. */
  predicate Plain(s: Bytes)
  {
    forall j :: 0 <= j < |s| ==> s[j] != '"' && s[j] != '\\'
  }

  predicate NumberByte(c: Byte)
  {
    '0' <= c <= '9' || c == '-' || c == '+' || c == '.' || c == 'e' || c == 'E'
  }

  /** The text of a number: a sign or digit first, then number bytes. */
  predicate NumberText(s: Bytes)
  {
    s != [] && (s[0] == '-' || '0' <= s[0] <= '9') && forall j :: 0 <= j < |s| ==> NumberByte(s[j])
  }

  /** The documents the reference covers: numbers are number text, strings
      and keys are plain, and every object and array has an entry. */
  predicate Good(v: Json)
    decreases v
  {
    match v
    case JNumber(t) => NumberText(t)
    case JString(t) => Plain(t)
    case JArray(es) => es != [] && forall j :: 0 <= j < |es| ==> Good(es[j])
    case JObject(ms) => ms != [] && forall j :: 0 <= j < |ms| ==> Plain(ms[j].key) && Good(ms[j].value)
    case _ => true
  }

  /** The compact rendering: no blanks, `,` between entries, `:` after keys. */
  function Render(v: Json): (r: Bytes)
    ensures |r| >= 1
    ensures IsContainer(v) ==> |r| >= 2 && r[0] == Opener(v)
    decreases v, 1, 0
  {
    match v
    case JNull => "null"
    case JTrue => "true"
    case JFalse => "false"
    case JNumber(t) => if t == [] then "0" else t
    case JString(t) => ['"'] + t + ['"']
    case JArray(es) => if es == [] then "[]" else ['['] + Elems(v, 0)
    case JObject(ms) => if ms == [] then "{}" else ['{'] + Members(v, 0)
  }

  /** The elements from index `j` on, each followed by `,` and the last by `]`. */
  function Elems(v: Json, j: nat): (r: Bytes)
    requires v.JArray? && j < |v.elems|
    ensures |r| >= 1
    decreases v, 0, |v.elems| - j
  {
    Render(v.elems[j]) + (if j + 1 == |v.elems| then "]" else [','] + Elems(v, j + 1))
  }

  /** The members from index `j` on, each followed by `,` and the last by `}`. */
  function Members(v: Json, j: nat): (r: Bytes)
    requires v.JObject? && j < |v.members|
    ensures |r| >= 1
    decreases v, 0, |v.members| - j
  {
    ['"'] + v.members[j].key + ['"', ':'] + Render(v.members[j].value)
      + (if j + 1 == |v.members| then "}" else [','] + Members(v, j + 1))
  }

  /** The result that names a value found in a rendered document: blocks
      carry their text, strings their contents, numbers their text and
      parsed value, and the words themselves. */
  function Expected(v: Json, parse: Bytes -> real): (r: Result)
    ensures r.Exists() && r != NotFound
    ensures v.JString? ==> r.kind == String && r.str == v.text
    ensures IsContainer(v) ==> r.kind == JSON && r.raw == Render(v)
  {
    match v
    case JNull => Result(Null, "null", [], 0.0)
    case JTrue => Result(True, "true", [], 0.0)
    case JFalse => Result(False, "false", [], 0.0)
    case JNumber(t) => Result(Number, Render(v), [], parse(Render(v)))
    case JString(t) => Result(String, [], t, 0.0)
    case _ => Result(JSON, Render(v), [], 0.0)
  }

  /** The answer for the parts from index `d` on, inside container `v`.
      `None` when the path would go on below a scalar: the scan then reads
      the bytes after it as if they were its members, which the tree does
      not describe. */
  function LookupIn(v: Json, parts: seq<Part>, d: nat, parse: Bytes -> real): Option<Result>
    requires IsContainer(v) && d < |parts|
    decreases v, 1, 0
  {
    if v.JArray? then LookupElems(v, 0, 0, parts, d, parse) else LookupMembers(v, 0, parts, d, parse)
  }

  /** The lookup over the elements from `j` on, whose keys are counted from
      `c`.  When a descent below an element finds nothing, the count starts
      again from zero: the level's frame comes back as it was stored. */
  function LookupElems(v: Json, j: nat, c: nat, parts: seq<Part>, d: nat, parse: Bytes -> real): Option<Result>
    requires v.JArray? && j <= |v.elems| && d < |parts|
    decreases v, 0, |v.elems| - j
  {
    if j == |v.elems| then Some(if parts[d].key == "#" then Count(c) else NotFound)
    else
      var e := v.elems[j];
      if !Matches(parts[d], Decimal(c)) then LookupElems(v, j + 1, c + 1, parts, d, parse)
      else if d + 1 == |parts| then Some(Expected(e, parse))
      else if !IsContainer(e) then None
      else match LookupIn(e, parts, d + 1, parse)
        case None => None
        case Some(r) => if r != NotFound then Some(r) else LookupElems(v, j + 1, 0, parts, d, parse)
  }

  /** The lookup over the members from `j` on.  An object answers `#` with zero. */
  function LookupMembers(v: Json, j: nat, parts: seq<Part>, d: nat, parse: Bytes -> real): Option<Result>
    requires v.JObject? && j <= |v.members| && d < |parts|
    decreases v, 0, |v.members| - j
  {
    if j == |v.members| then Some(if parts[d].key == "#" then Count(0) else NotFound)
    else
      var m := v.members[j];
      if !Matches(parts[d], m.key) then LookupMembers(v, j + 1, parts, d, parse)
      else if d + 1 == |parts| then Some(Expected(m.value, parse))
      else if !IsContainer(m.value) then None
      else match LookupIn(m.value, parts, d + 1, parse)
        case None => None
        case Some(r) => if r != NotFound then Some(r) else LookupMembers(v, j + 1, parts, d, parse)
  }

  // ---------------------------------------------------------------------
  // What the lookup answers.

  /** `#` as the last part counts the elements: no element key is `#`. */
  lemma {:induction false} CountElems(v: Json, j: nat, c: nat, parts: seq<Part>, d: nat, parse: Bytes -> real)
    requires v.JArray? && j <= |v.elems| && d + 1 == |parts| && parts[d] == Part(false, "#")
    ensures LookupElems(v, j, c, parts, d, parse) == Some(Count(c + |v.elems| - j))
    decreases |v.elems| - j
  {
    if j < |v.elems| {
      assert Decimal(c)[0] != '#';
      CountElems(v, j + 1, c + 1, parts, d, parse);
    }
  }

  /** The last part answers with the value of the first member whose key
      it matches; later members with a matching key are never looked at. */
  lemma {:induction false} FirstMember(v: Json, j0: nat, j: nat, parts: seq<Part>, d: nat, parse: Bytes -> real)
    requires v.JObject? && j0 <= j < |v.members| && d + 1 == |parts|
    requires forall k :: j0 <= k < j ==> !Matches(parts[d], v.members[k].key)
    requires Matches(parts[d], v.members[j].key)
    ensures LookupMembers(v, j0, parts, d, parse) == Some(Expected(v.members[j].value, parse))
    decreases j - j0
  {
    if j0 < j {
      FirstMember(v, j0 + 1, j, parts, d, parse);
    }
  }

  /** A part before the last descends into the value of the first member
      whose key it matches; when that value answers, so does the object. */
  lemma {:induction false} FirstMemberBelow(v: Json, j0: nat, j: nat, parts: seq<Part>, d: nat, parse: Bytes -> real, r: Result)
    requires v.JObject? && j0 <= j < |v.members| && d + 1 < |parts|
    requires forall k :: j0 <= k < j ==> !Matches(parts[d], v.members[k].key)
    requires Matches(parts[d], v.members[j].key) && IsContainer(v.members[j].value)
    requires LookupIn(v.members[j].value, parts, d + 1, parse) == Some(r) && r != NotFound
    ensures LookupMembers(v, j0, parts, d, parse) == Some(r)
    decreases j - j0
  {
    if j0 < j {
      FirstMemberBelow(v, j0 + 1, j, parts, d, parse, r);
    }
  }

  /** The last part answers with the first element whose index it matches. */
  lemma {:induction false} FirstElem(v: Json, j0: nat, j: nat, parts: seq<Part>, d: nat, parse: Bytes -> real)
    requires v.JArray? && j0 <= j < |v.elems| && d + 1 == |parts|
    requires forall k :: j0 <= k < j ==> !Matches(parts[d], Decimal(k))
    requires Matches(parts[d], Decimal(j))
    ensures LookupElems(v, j0, j0, parts, d, parse) == Some(Expected(v.elems[j], parse))
    decreases j - j0
  {
    if j0 < j {
      FirstElem(v, j0 + 1, j, parts, d, parse);
    }
  }
}
