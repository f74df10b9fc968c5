/** The first phase of `Get`: cutting a dotted path into parts.  A `\`
    makes the next byte literal and is itself dropped; an unescaped `.`
    ends a part; an unescaped `*` or `?` makes the part a wildcard. */
module Paths {
  import opened Text
  import opened Wildcard

  /** `part{wild, key}` of the source. */
  datatype Part = Part(wild: bool, key: Bytes)

  /** The splitter as the source's loop runs it, from byte `i` with the
      current part's bytes `cur` so far.  `escaped` records that escape mode
      was entered in this part: a `.` that then ends the path makes the
      source read one byte past the end, which is `None` here. */
  function SplitFrom(path: Bytes, i: nat, cur: Bytes, wild: bool, escaped: bool, acc: seq<Part>): (r: Option<seq<Part>>)
    requires i <= |path|
    ensures r.Some? ==> |r.value| > |acc|
    decreases |path| - i
  {
    if i == |path| then Some(acc + [Part(wild, cur)])
    else if path[i] == '\\' then
      if i + 1 < |path| then SplitFrom(path, i + 2, cur + [path[i + 1]], wild, true, acc)
      else Some(acc + [Part(wild, cur)])
    else if path[i] == '.' then
      if escaped && i + 1 == |path| then None
      else SplitFrom(path, i + 1, [], false, false, acc + [Part(wild, cur)])
    else SplitFrom(path, i + 1, cur + [path[i]], wild || path[i] == '*' || path[i] == '?', escaped, acc)
  }

  function Split(path: Bytes): Option<seq<Part>>
  {
    SplitFrom(path, 0, [], false, false, [])
  }

  /** The path splitting loop of `Get`.  The inner loop is escape mode; when
      it meets an unescaped `.` it resumes the outer loop at the next byte
      without the loop test (the source's `goto next_part`). */
  method SplitPath(path: Bytes) returns (parts: seq<Part>)
    requires Split(path).Some?
    ensures Split(path) == Some(parts)
  {
    parts := [];
    var s, i := 0, 0;
    var wild := false;
    while i < |path|
      invariant 0 <= s <= i <= |path|
      invariant SplitFrom(path, i, path[s..i], wild, false, parts) == Split(path)
      decreases |path| - i
    {
      assert path[s..i + 1] == path[s..i] + [path[i]];
      if path[i] == '\\' {
        // escape mode
        var epart := path[s..i];
        i := i + 1;
        if i < |path| {
          epart := epart + [path[i]];
          i := i + 1;
          var nextPart := false;
          while i < |path| && !nextPart
            invariant i <= |path| + 1
            invariant !nextPart ==> SplitFrom(path, if i <= |path| then i else |path|, epart, wild, true, parts) == Split(path)
            invariant nextPart ==> i < |path| && s == i && !wild
            invariant nextPart ==> SplitFrom(path, i, [], false, false, parts) == Split(path)
            decreases |path| + 1 - i, if nextPart then 0 else 1
          {
            if path[i] == '\\' {
              i := i + 1;
              if i < |path| {
                epart := epart + [path[i]];
              }
              i := i + 1;
            } else if path[i] == '.' {
              assert i + 1 < |path|;
              parts := parts + [Part(wild, epart)];
              wild := false;
              s := i + 1;
              i := i + 1;
              nextPart := true;
            } else {
              if path[i] == '*' || path[i] == '?' {
                wild := true;
              }
              epart := epart + [path[i]];
              i := i + 1;
            }
          }
          if nextPart {
            // the source reads path[i] here with no bound check
            assert path[s..i] == [];
            continue;
          }
        }
        assert i >= |path| ==> SplitFrom(path, |path|, epart, wild, true, parts) == Split(path);
        parts := parts + [Part(wild, epart)];
        return;
      } else if path[i] == '.' {
        parts := parts + [Part(wild, path[s..i])];
        wild := false;
        s := i + 1;
        assert path[s..i + 1] == [];
      } else if path[i] == '*' || path[i] == '?' {
        wild := true;
      }
      i := i + 1;
    }
    assert path[s..i] == path[s..];
    parts := parts + [Part(wild, path[s..])];
  }

  // ---------------------------------------------------------------------
  // Reference definition: a path is a sequence of tokens, grouped into parts.

  /** `\c` is the literal byte `c`; a `\` at the very end is dropped; `.`
      separates; `*` and `?` are special. */
  datatype Lexeme = Separator | Char(c: Byte, special: bool)

  function Tokens(path: Bytes): seq<Lexeme>
    decreases |path|
  {
    if path == [] then []
    else if path[0] == '\\' then (if |path| == 1 then [] else [Char(path[1], false)] + Tokens(path[2..]))
    else if path[0] == '.' then [Separator] + Tokens(path[1..])
    else [Char(path[0], path[0] == '*' || path[0] == '?')] + Tokens(path[1..])
  }

  /** Parts are the runs of characters between separators; a part is wild
      iff one of its characters is special. */
  function Group(toks: seq<Lexeme>, cur: Bytes, wild: bool): (parts: seq<Part>)
    ensures |parts| >= 1
  {
    if toks == [] then [Part(wild, cur)]
    else match toks[0]
      case Separator => [Part(wild, cur)] + Group(toks[1..], [], false)
      case Char(c, special) => Group(toks[1..], cur + [c], wild || special)
  }

  function Parts(path: Bytes): seq<Part>
  {
    Group(Tokens(path), [], false)
  }

  function CountSeparators(toks: seq<Lexeme>): nat
  {
    if toks == [] then 0 else (if toks[0] == Separator then 1 else 0) + CountSeparators(toks[1..])
  }

  /** The loop-shaped splitter computes the reference grouping. */
  lemma {:induction false} SplitFromIsGroup(path: Bytes, i: nat, cur: Bytes, wild: bool, escaped: bool, acc: seq<Part>)
    requires i <= |path|
    requires SplitFrom(path, i, cur, wild, escaped, acc).Some?
    ensures SplitFrom(path, i, cur, wild, escaped, acc) == Some(acc + Group(Tokens(path[i..]), cur, wild))
    decreases |path| - i
  {
    var rest := path[i..];
    if i == |path| {
      assert rest == [];
    } else {
      assert rest[0] == path[i];
      if path[i] == '\\' {
        if i + 1 < |path| {
          assert rest[1] == path[i + 1] && rest[2..] == path[i + 2..];
          SplitFromIsGroup(path, i + 2, cur + [path[i + 1]], wild, true, acc);
        } else {
          assert |rest| == 1 && Tokens(rest) == [];
        }
      } else if path[i] == '.' {
        assert rest[1..] == path[i + 1..];
        SplitFromIsGroup(path, i + 1, [], false, false, acc + [Part(wild, cur)]);
        var g := Group(Tokens(path[i + 1..]), [], false);
        assert Tokens(rest) == [Separator] + Tokens(path[i + 1..]);
        assert Group(Tokens(rest), cur, wild) == [Part(wild, cur)] + g;
        assert acc + [Part(wild, cur)] + g == acc + ([Part(wild, cur)] + g);
      } else {
        assert rest[1..] == path[i + 1..];
        SplitFromIsGroup(path, i + 1, cur + [path[i]], wild || path[i] == '*' || path[i] == '?', escaped, acc);
      }
    }
  }

  lemma SplitIsParts(path: Bytes)
    requires Split(path).Some?
    ensures Split(path) == Some(Parts(path))
  {
    SplitFromIsGroup(path, 0, [], false, false, []);
    assert path[0..] == path;
    assert [] + Parts(path) == Parts(path);
  }

  predicate EndsWithSeparator(toks: seq<Lexeme>)
  {
    toks != [] && toks[|toks| - 1] == Separator
  }

  /** `Split` fails only on a path whose last token is an unescaped `.`. */
  lemma {:induction false} SplitFailsOnlyAtFinalSeparator(path: Bytes, i: nat, cur: Bytes, wild: bool, escaped: bool, acc: seq<Part>)
    requires i <= |path|
    requires SplitFrom(path, i, cur, wild, escaped, acc).None?
    ensures EndsWithSeparator(Tokens(path[i..]))
    decreases |path| - i
  {
    var rest := path[i..];
    assert rest[0] == path[i];
    if path[i] == '\\' {
      assert rest[1] == path[i + 1] && rest[2..] == path[i + 2..];
      SplitFailsOnlyAtFinalSeparator(path, i + 2, cur + [path[i + 1]], wild, true, acc);
    } else if path[i] == '.' {
      assert rest[1..] == path[i + 1..];
      if i + 1 < |path| {
        SplitFailsOnlyAtFinalSeparator(path, i + 1, [], false, false, acc + [Part(wild, cur)]);
      } else {
        assert rest[1..] == [];
      }
    } else {
      assert rest[1..] == path[i + 1..];
      SplitFailsOnlyAtFinalSeparator(path, i + 1, cur + [path[i]], wild || path[i] == '*' || path[i] == '?', escaped, acc);
    }
  }

  /** A path of n unescaped dots has n + 1 parts. */
  lemma {:induction false} GroupCount(toks: seq<Lexeme>, cur: Bytes, wild: bool)
    ensures |Group(toks, cur, wild)| == 1 + CountSeparators(toks)
  {
    if toks != [] {
      match toks[0]
      case Separator => GroupCount(toks[1..], [], false);
      case Char(c, special) => GroupCount(toks[1..], cur + [c], wild || special);
    }
  }

  lemma PartCount(path: Bytes)
    ensures |Parts(path)| == 1 + CountSeparators(Tokens(path))
  {
    GroupCount(Tokens(path), [], false);
  }

  // ---------------------------------------------------------------------
  // Exactly which paths the splitter rejects.

  /** For each token of `Tokens(path)`, whether it is an escaped byte. */
  function Escaped(path: Bytes): (m: seq<bool>)
    ensures |m| == |Tokens(path)|
    decreases |path|
  {
    if path == [] then []
    else if path[0] == '\\' then (if |path| == 1 then [] else [true] + Escaped(path[2..]))
    else [false] + Escaped(path[1..])
  }

  /** No separator among the tokens from `j` up to, not including, the last. */
  predicate NoSeparatorFrom(toks: seq<Lexeme>, j: nat)
  {
    forall k :: j <= k < |toks| - 1 ==> toks[k] != Separator
  }

  /** An escaped token lies in the part that the last token closes. */
  predicate EscapeInLastPart(toks: seq<Lexeme>, esc: seq<bool>)
  {
    exists j :: 0 <= j < |toks| - 1 && j < |esc| && esc[j] && NoSeparatorFrom(toks, j)
  }

  /** `rest` ends in a `.` that is a separator, and the part that separator
      closes holds an escaped byte, or, when escape mode was already entered
      in that part before `rest` (`escaped`), starts before `rest`. */
  predicate DotAfterEscape(rest: Bytes, escaped: bool)
  {
    var toks := Tokens(rest);
    rest != [] && rest[|rest| - 1] == '.' && EndsWithSeparator(toks)
    && ((escaped && NoSeparatorFrom(toks, 0)) || EscapeInLastPart(toks, Escaped(rest)))
  }

  /** `Split` fails exactly on a path that ends in an unescaped `.` closing
      a part that holds an escaped byte. */
  lemma SplitFailsExactly(path: Bytes)
    ensures Split(path).None? <==> DotAfterEscape(path, false)
  {
    SplitFromFails(path, 0, [], false, false, []);
    assert path[0..] == path;
  }

  lemma {:induction false} SplitFromFails(path: Bytes, i: nat, cur: Bytes, wild: bool, escaped: bool, acc: seq<Part>)
    requires i <= |path|
    ensures SplitFrom(path, i, cur, wild, escaped, acc).None? <==> DotAfterEscape(path[i..], escaped)
    decreases |path| - i
  {
    var rest := path[i..];
    if i == |path| {
      assert rest == [];
    } else if path[i] == '\\' {
      if i + 1 < |path| {
        assert rest == ['\\', path[i + 1]] + path[i + 2..];
        SplitFromFails(path, i + 2, cur + [path[i + 1]], wild, true, acc);
        EscapeEntersMode(path[i + 1], path[i + 2..], escaped);
      } else {
        assert rest == ['\\'];
      }
    } else if path[i] == '.' {
      assert rest == ['.'] + path[i + 1..];
      if i + 1 < |path| {
        SplitFromFails(path, i + 1, [], false, false, acc + [Part(wild, cur)]);
        SeparatorLeavesMode(path[i + 1..], escaped);
      } else {
        FinalSeparator(escaped);
      }
    } else {
      assert rest == [path[i]] + path[i + 1..];
      SplitFromFails(path, i + 1, cur + [path[i]], wild || path[i] == '*' || path[i] == '?', escaped, acc);
      PlainKeepsMode(path[i], path[i + 1..], escaped);
    }
  }

  /** An escape `\c` enters escape mode for the rest of the part. */
  lemma EscapeEntersMode(c: Byte, r: Bytes, escaped: bool)
    ensures DotAfterEscape(['\\', c] + r, escaped) <==> DotAfterEscape(r, true)
  {
    var w := ['\\', c] + r;
    assert w[2..] == r;
    var toks := Tokens(r);
    assert Tokens(w) == [Char(c, false)] + toks && Escaped(w) == [true] + Escaped(r);
    ConsNoSeparator(Char(c, false), toks);
    ConsEscape(Char(c, false), true, toks, Escaped(r));
    if r != [] {
      assert w[|w| - 1] == r[|r| - 1];
    }
  }

  /** A plain byte changes nothing about escape mode. */
  lemma PlainKeepsMode(c: Byte, r: Bytes, escaped: bool)
    requires c != '\\' && c != '.'
    ensures DotAfterEscape([c] + r, escaped) <==> DotAfterEscape(r, escaped)
  {
    var w := [c] + r;
    assert w[1..] == r;
    var t := Char(c, c == '*' || c == '?');
    var toks := Tokens(r);
    assert Tokens(w) == [t] + toks && Escaped(w) == [false] + Escaped(r);
    ConsNoSeparator(t, toks);
    ConsEscape(t, false, toks, Escaped(r));
    if r != [] {
      assert w[|w| - 1] == r[|r| - 1];
    }
  }

  /** A separator that is not the last byte starts a part without escapes. */
  lemma SeparatorLeavesMode(r: Bytes, escaped: bool)
    requires r != []
    ensures DotAfterEscape(['.'] + r, escaped) <==> DotAfterEscape(r, false)
  {
    var w := ['.'] + r;
    assert w[1..] == r;
    var toks := Tokens(r);
    assert Tokens(w) == [Separator] + toks && Escaped(w) == [false] + Escaped(r);
    ConsEscape(Separator, false, toks, Escaped(r));
    assert w[|w| - 1] == r[|r| - 1];
    if r[|r| - 1] == '.' {
      LastDotToken(r);
      assert ([Separator] + toks)[0] == Separator;
    }
  }

  /** A `.` as the last byte of the path fails exactly in escape mode. */
  lemma FinalSeparator(escaped: bool)
    ensures DotAfterEscape(['.'], escaped) <==> escaped
  {
    var w: Bytes := ['.'];
    assert w[1..] == [];
    assert Tokens(w) == [Separator] && Escaped(w) == [false];
  }

  /** A path ending in `.` has at least one token. */
  lemma {:induction false} LastDotToken(r: Bytes)
    requires r != [] && r[|r| - 1] == '.'
    ensures Tokens(r) != []
    decreases |r|
  {
    if r[0] == '\\' && |r| > 2 {
      assert r[2..][|r| - 3] == '.';
    } else if r[0] != '\\' && |r| > 1 {
      assert r[1..][|r| - 2] == '.';
    }
  }

  lemma ConsNoSeparator(t: Lexeme, toks: seq<Lexeme>)
    requires t.Char?
    ensures NoSeparatorFrom([t] + toks, 0) <==> NoSeparatorFrom(toks, 0)
  {
    var w := [t] + toks;
    if NoSeparatorFrom(toks, 0) {
      forall k | 0 <= k < |w| - 1 ensures w[k] != Separator {
        if k > 0 {
          assert w[k] == toks[k - 1];
        }
      }
    }
    if NoSeparatorFrom(w, 0) {
      forall k | 0 <= k < |toks| - 1 ensures toks[k] != Separator {
        assert w[k + 1] == toks[k];
      }
    }
  }

  lemma ShiftNoSeparator(t: Lexeme, toks: seq<Lexeme>, j: nat)
    ensures NoSeparatorFrom([t] + toks, j + 1) <==> NoSeparatorFrom(toks, j)
  {
    var w := [t] + toks;
    if NoSeparatorFrom(toks, j) {
      forall k | j + 1 <= k < |w| - 1 ensures w[k] != Separator {
        assert w[k] == toks[k - 1];
      }
    }
    if NoSeparatorFrom(w, j + 1) {
      forall k | j <= k < |toks| - 1 ensures toks[k] != Separator {
        assert w[k + 1] == toks[k];
      }
    }
  }

  /** An escaped token in front is in the last part when no separator follows it. */
  lemma ConsEscape(t: Lexeme, m: bool, toks: seq<Lexeme>, esc: seq<bool>)
    requires |esc| == |toks|
    ensures EscapeInLastPart([t] + toks, [m] + esc)
        <==> (m && toks != [] && NoSeparatorFrom([t] + toks, 0)) || EscapeInLastPart(toks, esc)
  {
    var w, e := [t] + toks, [m] + esc;
    if EscapeInLastPart(w, e) {
      var j :| 0 <= j < |w| - 1 && j < |e| && e[j] && NoSeparatorFrom(w, j);
      if j > 0 {
        ShiftNoSeparator(t, toks, j - 1);
        assert esc[j - 1] == e[j];
      }
    }
    if EscapeInLastPart(toks, esc) {
      var j :| 0 <= j < |toks| - 1 && j < |esc| && esc[j] && NoSeparatorFrom(toks, j);
      ShiftNoSeparator(t, toks, j);
      assert e[j + 1] == esc[j];
    }
    if m && toks != [] && NoSeparatorFrom(w, 0) {
      assert e[0];
    }
  }

  // ---------------------------------------------------------------------
  // Escaping keys so that they are matched literally.

  /** The bytes that the splitter does not take literally. */
  predicate Special(c: Byte)
  {
    c == '\\' || c == '.' || c == '*' || c == '?'
  }

  /** A `\` before each byte that the splitter treats specially. */
  function Escape(key: Bytes): (r: Bytes)
    ensures |r| >= |key|
  {
    if key == [] then [] else EscapeByte(key[0]) + Escape(key[1..])
  }

  function EscapeByte(c: Byte): (r: Bytes)
    ensures 1 <= |r| <= 2
  {
    if Special(c) then ['\\', c] else [c]
  }

  /** The path that addresses the keys `keys` one level after another. */
  function EscapedPath(keys: seq<Bytes>): Bytes
    requires keys != []
  {
    if |keys| == 1 then Escape(keys[0]) else Escape(keys[0]) + "." + EscapedPath(keys[1..])
  }

  function Literal(key: Bytes): seq<Lexeme>
  {
    if key == [] then [] else [Char(key[0], false)] + Literal(key[1..])
  }

  lemma {:induction false} TokensOfEscape(key: Bytes, rest: Bytes)
    ensures Tokens(Escape(key) + rest) == Literal(key) + Tokens(rest)
  {
    if key == [] {
      assert Escape(key) + rest == rest;
    } else {
      var w := Escape(key[1..]) + rest;
      EscapeCons(key, rest);
      TokensOfEscapedByte(key[0], w);
      TokensOfEscape(key[1..], rest);
      LiteralCons(key, Tokens(rest));
    }
  }

  lemma EscapeCons(key: Bytes, rest: Bytes)
    requires key != []
    ensures Escape(key) + rest == EscapeByte(key[0]) + (Escape(key[1..]) + rest)
  {
  }

  lemma LiteralCons(key: Bytes, toks: seq<Lexeme>)
    requires key != []
    ensures Literal(key) + toks == [Char(key[0], false)] + (Literal(key[1..]) + toks)
  {
  }

  /** One escaped byte is one literal character. */
  lemma TokensOfEscapedByte(c: Byte, w: Bytes)
    ensures Tokens(EscapeByte(c) + w) == [Char(c, false)] + Tokens(w)
  {
    var x := EscapeByte(c) + w;
    if Special(c) {
      assert x[0] == '\\' && x[1] == c && x[2..] == w;
    } else {
      assert x[0] == c && x[1..] == w;
    }
  }

  lemma {:induction false} GroupLiteral(key: Bytes, toks: seq<Lexeme>, cur: Bytes, wild: bool)
    ensures Group(Literal(key) + toks, cur, wild) == Group(toks, cur + key, wild)
  {
    if key == [] {
      assert Literal(key) + toks == toks && cur + key == cur;
    } else {
      LiteralCons(key, toks);
      GroupChar(key[0], Literal(key[1..]) + toks, cur, wild);
      GroupLiteral(key[1..], toks, cur + [key[0]], wild);
      AppendHead(cur, key);
    }
  }

  lemma AppendHead(cur: Bytes, key: Bytes)
    requires key != []
    ensures cur + [key[0]] + key[1..] == cur + key
  {
    assert key == [key[0]] + key[1..];
  }

  /** A character token that is not special joins the current part. */
  lemma GroupChar(c: Byte, toks: seq<Lexeme>, cur: Bytes, wild: bool)
    ensures Group([Char(c, false)] + toks, cur, wild) == Group(toks, cur + [c], wild)
  {
    var t := [Char(c, false)] + toks;
    assert t[0] == Char(c, false) && t[1..] == toks;
  }

  function LiteralParts(keys: seq<Bytes>): (parts: seq<Part>)
    ensures |parts| == |keys|
    ensures forall i :: 0 <= i < |keys| ==> parts[i] == Part(false, keys[i])
  {
    if keys == [] then [] else [Part(false, keys[0])] + LiteralParts(keys[1..])
  }

  lemma {:induction false} GroupEscapedPath(keys: seq<Bytes>)
    requires keys != []
    ensures Group(Tokens(EscapedPath(keys)), [], false) == LiteralParts(keys)
  {
    if |keys| == 1 {
      TokensOfEscapedKey(keys[0]);
      GroupLiteral(keys[0], [], [], false);
      assert Literal(keys[0]) + [] == Literal(keys[0]) && [] + keys[0] == keys[0];
    } else {
      var t := Tokens(EscapedPath(keys[1..]));
      TokensOfEscapedPath(keys);
      GroupLiteral(keys[0], [Separator] + t, [], false);
      GroupSeparator(t, [] + keys[0], false);
      GroupEscapedPath(keys[1..]);
      assert [] + keys[0] == keys[0];
    }
  }

  /** An escaped path whose last key is not empty does not end in a
      separator. */
  lemma {:induction false} EscapedPathEnd(keys: seq<Bytes>)
    requires keys != [] && keys[|keys| - 1] != []
    ensures Tokens(EscapedPath(keys)) != [] && !EndsWithSeparator(Tokens(EscapedPath(keys)))
  {
    if |keys| == 1 {
      TokensOfEscapedKey(keys[0]);
      LiteralLast(keys[0]);
    } else {
      TokensOfEscapedPath(keys);
      assert keys[1..][|keys[1..]| - 1] == keys[|keys| - 1];
      EscapedPathEnd(keys[1..]);
      var t := Tokens(EscapedPath(keys[1..]));
      OpenAppend(Literal(keys[0]) + [Separator], t);
      assert Literal(keys[0]) + ([Separator] + t) == Literal(keys[0]) + [Separator] + t;
    }
  }

  /** Tokens in front keep the last token. */
  lemma OpenAppend(a: seq<Lexeme>, t: seq<Lexeme>)
    requires t != [] && !EndsWithSeparator(t)
    ensures a + t != [] && !EndsWithSeparator(a + t)
  {
    assert (a + t)[|a + t| - 1] == t[|t| - 1];
  }

  lemma TokensOfEscapedKey(key: Bytes)
    ensures Tokens(Escape(key)) == Literal(key)
  {
    TokensOfEscape(key, []);
    assert Escape(key) + [] == Escape(key) && Literal(key) + [] == Literal(key);
  }

  lemma TokensOfEscapedPath(keys: seq<Bytes>)
    requires |keys| > 1
    ensures Tokens(EscapedPath(keys)) == Literal(keys[0]) + ([Separator] + Tokens(EscapedPath(keys[1..])))
  {
    var rest := EscapedPath(keys[1..]);
    var tail := "." + rest;
    assert EscapedPath(keys) == Escape(keys[0]) + tail;
    TokensOfEscape(keys[0], tail);
    assert tail[0] == '.' && tail[1..] == rest;
  }

  /** A separator closes the current part. */
  lemma GroupSeparator(toks: seq<Lexeme>, cur: Bytes, wild: bool)
    ensures Group([Separator] + toks, cur, wild) == [Part(wild, cur)] + Group(toks, [], false)
  {
    var t := [Separator] + toks;
    assert t[0] == Separator && t[1..] == toks;
  }

  lemma {:induction false} LiteralLast(key: Bytes)
    ensures |Literal(key)| == |key|
    ensures Literal(key) != [] ==> Literal(key)[|Literal(key)| - 1] != Separator
  {
    if key != [] { LiteralLast(key[1..]); }
  }

  /** Escaping round trip: escaping each key and joining with dots gives a
      path whose parts are exactly those keys, none of them wild.  (The last
      key must not be empty: an empty last key after an escaped key is the
      path on which the source reads past the end.) */
  lemma EscapedPathRoundTrip(keys: seq<Bytes>)
    requires keys != [] && keys[|keys| - 1] != []
    ensures Split(EscapedPath(keys)) == Some(LiteralParts(keys))
  {
    EscapedPathSplits(keys);
    SplitIsParts(EscapedPath(keys));
    GroupEscapedPath(keys);
  }

  /** An escaped path whose last key is not empty does not end in an
      unescaped `.`, so it splits. */
  lemma EscapedPathSplits(keys: seq<Bytes>)
    requires keys != [] && keys[|keys| - 1] != []
    ensures Split(EscapedPath(keys)).Some?
  {
    EscapedPathEnd(keys);
    SplitsUnlessFinalSeparator(EscapedPath(keys));
  }

  /** A path whose last token is not an unescaped `.` splits. */
  lemma SplitsUnlessFinalSeparator(path: Bytes)
    requires !EndsWithSeparator(Tokens(path))
    ensures Split(path).Some?
  {
    assert path[0..] == path;
    if Split(path).None? {
      SplitFailsOnlyAtFinalSeparator(path, 0, [], false, false, []);
    }
  }

  // ---------------------------------------------------------------------
  // Paths without escapes.

  predicate NoBackslash(path: Bytes)
  {
    forall i :: 0 <= i < |path| ==> path[i] != '\\'
  }

  function JoinKeys(parts: seq<Part>): Bytes
    requires parts != []
  {
    if |parts| == 1 then parts[0].key else parts[0].key + "." + JoinKeys(parts[1..])
  }

  /** `parts` extends `acc` by parts without dots, each wild exactly when
      its key holds `*` or `?`, whose keys joined with dots are `text`. */
  predicate PlainParts(parts: seq<Part>, acc: seq<Part>, text: Bytes)
  {
    && |parts| > |acc| && parts[..|acc|] == acc
    && JoinKeys(parts[|acc|..]) == text
    && (forall k :: |acc| <= k < |parts| ==> '.' !in parts[k].key)
    && (forall k :: |acc| <= k < |parts| ==> parts[k].wild == HasWildcard(parts[k].key))
  }

  /** Splitting a path without `\` on its dots: joining the keys gives the
      path back, no key contains a dot, and a part is wild exactly when its
      key contains `*` or `?`. */
  lemma PlainPathSplit(path: Bytes)
    requires NoBackslash(path)
    ensures Split(path).Some?
    ensures var parts := Split(path).value;
      && parts != []
      && JoinKeys(parts) == path
      && (forall i :: 0 <= i < |parts| ==> '.' !in parts[i].key)
      && (forall i :: 0 <= i < |parts| ==> parts[i].wild == HasWildcard(parts[i].key))
  {
    PlainSplitFrom(path, 0, [], false, []);
    assert path[0..] == path;
    assert [] + path == path;
    assert Split(path).value[0..] == Split(path).value;
  }

  lemma {:induction false} PlainSplitFrom(path: Bytes, i: nat, cur: Bytes, wild: bool, acc: seq<Part>)
    requires i <= |path| && NoBackslash(path)
    requires '.' !in cur && wild == HasWildcard(cur)
    ensures SplitFrom(path, i, cur, wild, false, acc).Some?
    ensures PlainParts(SplitFrom(path, i, cur, wild, false, acc).value, acc, cur + path[i..])
    decreases |path| - i, 1
  {
    if i == |path| {
      PlainLast(acc, cur, wild);
      assert path[i..] == [] && cur + [] == cur;
    } else if path[i] == '.' {
      PlainSplitDot(path, i, cur, wild, acc);
    } else {
      PlainSplitByte(path, i, cur, wild, acc);
    }
  }

  lemma {:induction false} PlainSplitDot(path: Bytes, i: nat, cur: Bytes, wild: bool, acc: seq<Part>)
    requires i < |path| && NoBackslash(path) && path[i] == '.'
    requires '.' !in cur && wild == HasWildcard(cur)
    ensures SplitFrom(path, i, cur, wild, false, acc).Some?
    ensures PlainParts(SplitFrom(path, i, cur, wild, false, acc).value, acc, cur + path[i..])
    decreases |path| - i, 0
  {
    assert '.' !in [] && !HasWildcard([]);
    var acc' := acc + [Part(wild, cur)];
    assert SplitFrom(path, i, cur, wild, false, acc) == SplitFrom(path, i + 1, [], false, false, acc');
    PlainSplitFrom(path, i + 1, [], false, acc');
    PlainDot(SplitFrom(path, i + 1, [], false, false, acc').value, acc, cur, wild, path[i + 1..]);
    DotTail(path, i, cur);
  }

  lemma DotTail(path: Bytes, i: nat, cur: Bytes)
    requires i < |path| && path[i] == '.'
    ensures cur + "." + ([] + path[i + 1..]) == cur + path[i..]
  {
    assert path[i..] == "." + path[i + 1..];
  }

  lemma {:induction false} PlainSplitByte(path: Bytes, i: nat, cur: Bytes, wild: bool, acc: seq<Part>)
    requires i < |path| && NoBackslash(path) && path[i] != '.'
    requires '.' !in cur && wild == HasWildcard(cur)
    ensures SplitFrom(path, i, cur, wild, false, acc).Some?
    ensures PlainParts(SplitFrom(path, i, cur, wild, false, acc).value, acc, cur + path[i..])
    decreases |path| - i, 0
  {
    var c := path[i];
    HasWildcardSnoc(cur, c);
    var w := wild || c == '*' || c == '?';
    assert SplitFrom(path, i, cur, wild, false, acc) == SplitFrom(path, i + 1, cur + [c], w, false, acc);
    PlainSplitFrom(path, i + 1, cur + [c], w, acc);
    ByteTail(path, i, cur);
  }

  lemma ByteTail(path: Bytes, i: nat, cur: Bytes)
    requires i < |path|
    ensures cur + [path[i]] + path[i + 1..] == cur + path[i..]
  {
    assert path[i..] == [path[i]] + path[i + 1..];
  }

  lemma PlainLast(acc: seq<Part>, cur: Bytes, wild: bool)
    requires '.' !in cur && wild == HasWildcard(cur)
    ensures PlainParts(acc + [Part(wild, cur)], acc, cur)
  {
    var parts := acc + [Part(wild, cur)];
    assert parts[..|acc|] == acc;
    assert parts[|acc|..] == [Part(wild, cur)];
  }

  /** A part closed by a dot goes in front of the parts that follow it. */
  lemma PlainDot(parts: seq<Part>, acc: seq<Part>, cur: Bytes, wild: bool, tail: Bytes)
    requires '.' !in cur && wild == HasWildcard(cur)
    requires PlainParts(parts, acc + [Part(wild, cur)], tail)
    ensures PlainParts(parts, acc, cur + "." + tail)
  {
    var acc' := acc + [Part(wild, cur)];
    assert parts[..|acc|] == acc' [..|acc|] == acc;
    assert parts[|acc|] == acc'[|acc|] == Part(wild, cur);
    assert parts[|acc|..] == [Part(wild, cur)] + parts[|acc'|..];
  }

  lemma HasWildcardSnoc(s: Bytes, c: Byte)
    requires '.' !in s && c != '.'
    ensures '.' !in s + [c]
    ensures HasWildcard(s + [c]) == (HasWildcard(s) || c == '*' || c == '?')
  {
    var t := s + [c];
    if HasWildcard(s) {
      var j :| 0 <= j < |s| && (s[j] == '*' || s[j] == '?');
      assert t[j] == s[j];
    }
    if c == '*' || c == '?' {
      assert t[|s|] == c;
    }
    if HasWildcard(t) {
      var j :| 0 <= j < |t| && (t[j] == '*' || t[j] == '?');
      if j < |s| { assert s[j] == t[j]; }
    }
  }

  // ---------------------------------------------------------------------
  // Examples.

  /** No byte of `s` is special. */
  predicate Ordinary(s: Bytes)
  {
    forall c :: c in s ==> !Special(c)
  }

  /** A run of ordinary bytes is appended to the current part as it is. */
  lemma {:induction false} SplitFromOrdinary(path: Bytes, i: nat, j: nat, cur: Bytes, wild: bool, escaped: bool, acc: seq<Part>)
    requires i <= j <= |path| && Ordinary(path[i..j])
    ensures SplitFrom(path, i, cur, wild, escaped, acc) == SplitFrom(path, j, cur + path[i..j], wild, escaped, acc)
    decreases j - i
  {
    if i == j {
      assert cur + path[i..j] == cur;
    } else {
      assert path[i..j][0] == path[i] && path[i..j][1..] == path[i + 1..j];
      assert !Special(path[i]);
      SplitFromOrdinary(path, i + 1, j, cur + [path[i]], wild, escaped, acc);
      assert cur + [path[i]] + path[i + 1..j] == cur + path[i..j];
    }
  }

  /** No `\` and no `.` in `s`: the splitter copies it into one part. */
  predicate Unbroken(s: Bytes)
  {
    forall j :: 0 <= j < |s| ==> s[j] != '\\' && s[j] != '.'
  }

  lemma HasWildcardCons(c: Byte, s: Bytes)
    ensures HasWildcard([c] + s) == (c == '*' || c == '?' || HasWildcard(s))
  {
    var t := [c] + s;
    if c == '*' || c == '?' {
      assert t[0] == c;
    }
    if HasWildcard(s) {
      var j :| 0 <= j < |s| && (s[j] == '*' || s[j] == '?');
      assert t[j + 1] == s[j];
    }
    if HasWildcard(t) {
      var j :| 0 <= j < |t| && (t[j] == '*' || t[j] == '?');
      if j > 0 { assert s[j - 1] == t[j]; }
    }
  }

  /** A run without `\` or `.` is appended to the current part, which is
      then wild when it was or the run holds `*` or `?`. */
  lemma {:induction false} SplitFromRun(path: Bytes, i: nat, j: nat, cur: Bytes, wild: bool, escaped: bool, acc: seq<Part>)
    requires i <= j <= |path| && Unbroken(path[i..j])
    ensures SplitFrom(path, i, cur, wild, escaped, acc)
         == SplitFrom(path, j, cur + path[i..j], wild || HasWildcard(path[i..j]), escaped, acc)
    decreases j - i
  {
    if i == j {
      assert cur + path[i..j] == cur;
      assert !HasWildcard(path[i..j]);
    } else {
      var run := path[i..j];
      assert run[0] == path[i] && run[1..] == path[i + 1..j] && run == [path[i]] + path[i + 1..j];
      HasWildcardCons(path[i], path[i + 1..j]);
      var w := wild || path[i] == '*' || path[i] == '?';
      SplitFromRun(path, i + 1, j, cur + [path[i]], w, escaped, acc);
      assert cur + [path[i]] + path[i + 1..j] == cur + path[i..j];
    }
  }

  /** Two keys without `\` or `.` joined by a dot split into those keys,
      each wild exactly when it holds `*` or `?`. */
  lemma SplitDotted(a: Bytes, b: Bytes)
    requires Unbroken(a) && Unbroken(b)
    ensures Split(a + "." + b) == Some([Part(HasWildcard(a), a), Part(HasWildcard(b), b)])
  {
    var acc := [Part(HasWildcard(a), a)];
    DottedHead(a, b);
    DottedTail(a, b, acc);
    assert acc + [Part(HasWildcard(b), b)] == [Part(HasWildcard(a), a), Part(HasWildcard(b), b)];
  }

  /** The first key of `a.b` becomes a part when the dot is read. */
  lemma DottedHead(a: Bytes, b: Bytes)
    requires Unbroken(a)
    ensures SplitFrom(a + "." + b, 0, [], false, false, [])
         == SplitFrom(a + "." + b, |a| + 1, [], false, false, [Part(HasWildcard(a), a)])
  {
    var p := a + "." + b;
    var n := |a|;
    assert p[0..n] == a && p[n] == '.';
    SplitFromRun(p, 0, n, [], false, false, []);
    assert [] + a == a && [] + [Part(HasWildcard(a), a)] == [Part(HasWildcard(a), a)];
  }

  /** The second key of `a.b` is the last part. */
  lemma DottedTail(a: Bytes, b: Bytes, acc: seq<Part>)
    requires Unbroken(b)
    ensures SplitFrom(a + "." + b, |a| + 1, [], false, false, acc) == Some(acc + [Part(HasWildcard(b), b)])
  {
    var p := a + "." + b;
    assert p[|a| + 1..|p|] == b;
    SplitFromRun(p, |a| + 1, |p|, [], false, false, acc);
    assert [] + b == b;
  }

  /** A key without `\` or `.` is a path of one part. */
  lemma SplitSingle(a: Bytes)
    requires Unbroken(a)
    ensures Split(a) == Some([Part(HasWildcard(a), a)])
  {
    assert a[0..|a|] == a && [] + a == a;
    SplitFromRun(a, 0, |a|, [], false, false, []);
    assert [] + [Part(HasWildcard(a), a)] == [Part(HasWildcard(a), a)];
  }

  /** The paths of the escape test: an escaped `*`, `?` or `.` is a literal
      byte of the key and does not make the part wild. */
  lemma EscapeTestWildcards()
    ensures Split("test.keyk\\*.key\\?") == Some([Part(false, "test"), Part(false, "keyk*"), Part(false, "key?")])
  {
    var p: Bytes := "test.keyk\\*.key\\?";
    WildcardsTest(p);
    WildcardsStar(p);
    WildcardsQuestion(p);
  }

  lemma WildcardsTest(p: Bytes)
    requires p == "test.keyk\\*.key\\?"
    ensures SplitFrom(p, 0, [], false, false, []) == SplitFrom(p, 5, [], false, false, [Part(false, "test")])
  {
    assert p[0..4] == "test" && p[4] == '.';
    SplitFromOrdinary(p, 0, 4, [], false, false, []);
    assert [] + p[0..4] == "test" && [] + [Part(false, "test")] == [Part(false, "test")];
    assert SplitFrom(p, 4, "test", false, false, []) == SplitFrom(p, 5, [], false, false, [] + [Part(false, "test")]);
  }

  lemma WildcardsStar(p: Bytes)
    requires p == "test.keyk\\*.key\\?"
    ensures SplitFrom(p, 5, [], false, false, [Part(false, "test")])
         == SplitFrom(p, 12, [], false, false, [Part(false, "test"), Part(false, "keyk*")])
  {
    var a1 := [Part(false, "test")];
    assert p[5..9] == "keyk" && p[9] == '\\' && p[10] == '*' && p[11] == '.';
    SplitFromOrdinary(p, 5, 9, [], false, false, a1);
    assert [] + p[5..9] == "keyk" && "keyk" + [p[10]] == "keyk*";
    assert SplitFrom(p, 9, "keyk", false, false, a1) == SplitFrom(p, 11, "keyk*", false, true, a1);
    assert a1 + [Part(false, "keyk*")] == [Part(false, "test"), Part(false, "keyk*")];
  }

  lemma WildcardsQuestion(p: Bytes)
    requires p == "test.keyk\\*.key\\?"
    ensures SplitFrom(p, 12, [], false, false, [Part(false, "test"), Part(false, "keyk*")])
         == Some([Part(false, "test"), Part(false, "keyk*"), Part(false, "key?")])
  {
    var a2 := [Part(false, "test"), Part(false, "keyk*")];
    assert |p| == 17 && p[12..15] == "key" && p[15] == '\\' && p[16] == '?';
    SplitFromOrdinary(p, 12, 15, [], false, false, a2);
    assert [] + p[12..15] == "key" && "key" + [p[16]] == "key?";
    assert SplitFrom(p, 15, "key", false, false, a2) == SplitFrom(p, 17, "key?", false, true, a2);
    assert a2 + [Part(false, "key?")] == [Part(false, "test"), Part(false, "keyk*"), Part(false, "key?")];
  }

  lemma EscapeTestDot()
    ensures Split("test.key\\.v") == Some([Part(false, "test"), Part(false, "key.v")])
  {
    var p: Bytes := "test.key\\.v";
    DotTest(p);
    DotKey(p);
  }

  lemma DotTest(p: Bytes)
    requires p == "test.key\\.v"
    ensures SplitFrom(p, 0, [], false, false, []) == SplitFrom(p, 5, [], false, false, [Part(false, "test")])
  {
    assert p[0..4] == "test" && p[4] == '.';
    SplitFromOrdinary(p, 0, 4, [], false, false, []);
    assert [] + p[0..4] == "test" && [] + [Part(false, "test")] == [Part(false, "test")];
    assert SplitFrom(p, 4, "test", false, false, []) == SplitFrom(p, 5, [], false, false, [] + [Part(false, "test")]);
  }

  lemma DotKey(p: Bytes)
    requires p == "test.key\\.v"
    ensures SplitFrom(p, 5, [], false, false, [Part(false, "test")]) == Some([Part(false, "test"), Part(false, "key.v")])
  {
    var a1 := [Part(false, "test")];
    assert |p| == 11 && p[5..8] == "key" && p[8] == '\\' && p[9] == '.' && p[10] == 'v';
    SplitFromOrdinary(p, 5, 8, [], false, false, a1);
    assert [] + p[5..8] == "key";
    assert "key" + [p[9]] == "key." && "key." + [p[10]] == "key.v";
    assert SplitFrom(p, 8, "key", false, false, a1) == SplitFrom(p, 10, "key.", false, true, a1);
    assert SplitFrom(p, 10, "key.", false, true, a1) == SplitFrom(p, 11, "key.v", false, true, a1);
    assert a1 + [Part(false, "key.v")] == [Part(false, "test"), Part(false, "key.v")];
  }

  /** An unescaped `*` makes its part wild. */
  lemma WildPartExample()
    ensures Split("child*.2") == Some([Part(true, "child*"), Part(false, "2")])
  {
    var p: Bytes := "child*.2";
    WildPartChild(p);
    WildPartIndex(p);
  }

  lemma WildPartChild(p: Bytes)
    requires p == "child*.2"
    ensures SplitFrom(p, 0, [], false, false, []) == SplitFrom(p, 7, [], false, false, [Part(true, "child*")])
  {
    assert p[0..5] == "child" && p[5] == '*' && p[6] == '.';
    SplitFromOrdinary(p, 0, 5, [], false, false, []);
    assert [] + p[0..5] == "child" && "child" + [p[5]] == "child*";
    assert SplitFrom(p, 5, "child", false, false, []) == SplitFrom(p, 6, "child*", true, false, []);
    assert [] + [Part(true, "child*")] == [Part(true, "child*")];
  }

  lemma WildPartIndex(p: Bytes)
    requires p == "child*.2"
    ensures SplitFrom(p, 7, [], false, false, [Part(true, "child*")]) == Some([Part(true, "child*"), Part(false, "2")])
  {
    var a1 := [Part(true, "child*")];
    assert |p| == 8 && p[7] == '2' && [] + [p[7]] == "2";
    assert SplitFrom(p, 7, [], false, false, a1) == SplitFrom(p, 8, "2", false, false, a1);
    assert a1 + [Part(false, "2")] == [Part(true, "child*"), Part(false, "2")];
  }

  /** An unescaped `.` at the end gives a final empty part. */
  lemma TrailingDotPath()
    ensures Split("a.") == Some([Part(false, "a"), Part(false, "")])
  {
    var p: Bytes := "a.";
    assert |p| == 2 && p[0] == 'a' && p[1] == '.';
    var a1 := [] + [Part(false, "a")];
    assert p[0..1] == "a";
    SplitFromOrdinary(p, 0, 1, [], false, false, []);
    assert [] + p[0..1] == "a";
    assert SplitFrom(p, 1, "a", false, false, []) == SplitFrom(p, 2, [], false, false, a1);
    assert a1 + [Part(false, [])] == [Part(false, "a"), Part(false, "")];
  }

  /** After an escape in the same part, a final `.` sends the source past
      the end of the path. */
  lemma TrailingDotAfterEscape()
    ensures Split("a\\b.") == None
  {
    var p: Bytes := "a\\b.";
    assert |p| == 4 && p[0] == 'a' && p[1] == '\\' && p[2] == 'b' && p[3] == '.';
    assert [] + "a" == "a" && "a" + "b" == "ab";
    assert SplitFrom(p, 0, [], false, false, []) == SplitFrom(p, 1, "a", false, false, []);
    assert SplitFrom(p, 1, "a", false, false, []) == SplitFrom(p, 3, "a" + [p[2]], false, true, []);
  }

  /** A `\` that ends the path adds no token, so the tokens of `a\b.\` end
      in a separator; yet the `.` is not the last byte, and the path splits. */
  lemma DanglingBackslashSplits()
    ensures EndsWithSeparator(Tokens("a\\b.\\"))
    ensures Split("a\\b.\\") == Some([Part(false, "ab"), Part(false, "")])
  {
    var p: Bytes := "a\\b.\\";
    assert |p| == 5 && p[0] == 'a' && p[1] == '\\' && p[2] == 'b' && p[3] == '.' && p[4] == '\\';
    assert p[2..] == "b.\\" && p[2..][1..] == ".\\" && p[2..][1..][1..] == "\\";
    assert Tokens("\\") == [];
    assert Tokens(".\\") == [Separator];
    assert [] + "a" == "a" && "a" + "b" == "ab";
    assert SplitFrom(p, 0, [], false, false, []) == SplitFrom(p, 1, "a", false, false, []);
    assert SplitFrom(p, 1, "a", false, false, []) == SplitFrom(p, 3, "ab", false, true, []);
    assert [] + [Part(false, "ab")] == [Part(false, "ab")];
    assert SplitFrom(p, 3, "ab", false, true, []) == SplitFrom(p, 4, [], false, false, [Part(false, "ab")]);
    assert SplitFrom(p, 4, [], false, false, [Part(false, "ab")]) == Some([Part(false, "ab")] + [Part(false, [])]);
    assert [Part(false, "ab")] + [Part(false, [])] == [Part(false, "ab"), Part(false, "")];
  }
}
