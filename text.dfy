/** The string primitives the components rely on: `trim`, `toLowerCase`, `includes`,
    `split`, `join` and the collation behind `localeCompare`. */
module Text {

  /** The code points `String.prototype.trim` strips: ECMAScript WhiteSpace
      (tab, vertical tab, form feed, space, no-break space, byte order mark and the
      Unicode space separators) and LineTerminator (LF, CR, LS, PS). */
  predicate IsSpace(c: char) {
    c == ' ' || c == '\t' || c == '\n' || c == '\r' || c == '\U{000B}' || c == '\U{000C}'
    || c == '\U{00A0}' || c == '\U{FEFF}' || c == '\U{1680}'
    || ('\U{2000}' <= c <= '\U{200A}')
    || c == '\U{2028}' || c == '\U{2029}' || c == '\U{202F}' || c == '\U{205F}' || c == '\U{3000}'
  }

  /** Every character of `s` is white space (vacuously true of the empty string). */
  predicate Blank(s: string) {
    forall i :: 0 <= i < |s| ==> IsSpace(s[i])
  }

  /** `s` with its leading white space removed. */
  function TrimStart(s: string): (r: string)
    ensures |r| <= |s| && r == s[|s| - |r|..]
    ensures r == [] || !IsSpace(r[0])
    ensures forall i :: 0 <= i < |s| - |r| ==> IsSpace(s[i])
  {
    if |s| > 0 && IsSpace(s[0]) then TrimStart(s[1..]) else s
  }

  /** `s` with its trailing white space removed. */
  function TrimEnd(s: string): (r: string)
    ensures |r| <= |s| && r == s[..|r|]
    ensures r == [] || !IsSpace(r[|r| - 1])
    ensures forall i :: |r| <= i < |s| ==> IsSpace(s[i])
  {
    if |s| > 0 && IsSpace(s[|s| - 1]) then TrimEnd(s[..|s| - 1]) else s
  }

  /** `s` neither starts nor ends with white space. */
  predicate Tight(s: string) {
    s == [] || (!IsSpace(s[0]) && !IsSpace(s[|s| - 1]))
  }

  /** `String.prototype.trim`: `s` without its leading and trailing white space
      (`TrimOccurs` places it in `s`). It neither starts nor ends with white space,
      it is empty exactly when `s` is blank, and it is `s` itself when `s` has no
      surrounding white space. */
  function Trim(s: string): (r: string)
    ensures Tight(r)
    ensures r == [] <==> Blank(s)
    ensures Tight(s) ==> r == s
  {
    TrimBlank(s);
    TrimBoundaries(s);
    TrimIdentity(s);
    TrimEnd(TrimStart(s))
  }

  /** The trimmed string is the piece of `s` that starts after its leading white
      space. */
  lemma TrimOccurs(s: string)
    ensures OccursAt(s, Trim(s), |s| - |TrimStart(s)|)
  {
    var t := TrimStart(s);
    PrefixOfSuffix(s, |s| - |t|, TrimEnd(t));
  }

  /** Trimming drops only white space: every character of `s` before or after the
      trimmed piece is white space. */
  lemma TrimDropsOnlySpace(s: string)
    ensures forall i :: 0 <= i < |s| - |TrimStart(s)| ==> IsSpace(s[i])
    ensures forall i :: |s| - |TrimStart(s)| + |Trim(s)| <= i < |s| ==> IsSpace(s[i])
  {
    var t := TrimStart(s);
    var r := TrimEnd(t);
    assert Trim(s) == r;
    TailSpaces(s, |s| - |t|, |r|);
  }

  /** White space after offset `n` of the suffix `s[k..]` is white space of `s` after
      offset `k + n`. */
  lemma TailSpaces(s: string, k: nat, n: nat)
    requires k + n <= |s|
    requires forall j :: n <= j < |s[k..]| ==> IsSpace(s[k..][j])
    ensures forall i :: k + n <= i < |s| ==> IsSpace(s[i])
  {
    forall i | k + n <= i < |s| ensures IsSpace(s[i]) {
      assert s[k..][i - k] == s[i];
    }
  }

  /** Trimming adds no character. */
  lemma TrimKeepsOut(s: string, c: char)
    requires c !in s
    ensures c !in Trim(s)
  {
    TrimOccurs(s);
    var k := |s| - |TrimStart(s)|;
    var r := Trim(s);
    assert r == s[k..k + |r|];
    forall j | 0 <= j < |r| ensures r[j] != c {
      assert r[j] == s[k + j];
    }
  }

  /** A prefix of the suffix of `s` from `k` occurs in `s` at `k`. */
  lemma PrefixOfSuffix(s: string, k: nat, r: string)
    requires k <= |s| && |r| <= |s| - k && r == s[k..][..|r|]
    ensures OccursAt(s, r, k)
  {
  }

  lemma TrimBoundaries(s: string)
    ensures Tight(TrimEnd(TrimStart(s)))
  {
    var t := TrimStart(s);
    var r := TrimEnd(t);
    if r != [] {
      assert r == t[..|r|];
      assert r[0] == t[0];
    }
  }

  lemma TrimIdentity(s: string)
    ensures Tight(s) ==> TrimEnd(TrimStart(s)) == s
  {
    if Tight(s) {
      assert TrimStart(s) == s;
      assert TrimEnd(s) == s;
    }
  }

  lemma TrimBlank(s: string)
    ensures TrimEnd(TrimStart(s)) == [] <==> Blank(s)
  {
    var t := TrimStart(s);
    var k := |s| - |t|;
    if TrimEnd(t) == [] {
      assert t == [];
    } else {
      assert s[k] == t[0];
    }
  }

  /** Leading white space does not survive a trim. */
  lemma TrimLeadingSpace(c: char, s: string)
    requires IsSpace(c)
    ensures Trim([c] + s) == Trim(s)
  {
    assert ([c] + s)[1..] == s;
  }

  /** `toLowerCase` on one character, restricted to ASCII letters. */
  function LowerChar(c: char): char {
    if 'A' <= c <= 'Z' then (c as int + 32) as char else c
  }

  function Lower(s: string): (r: string)
    ensures |r| == |s|
    ensures forall i :: 0 <= i < |r| ==> !('A' <= r[i] <= 'Z')
    ensures forall i :: 0 <= i < |s| && !('A' <= s[i] <= 'Z') ==> r[i] == s[i]
  {
    seq(|s|, i requires 0 <= i < |s| => LowerChar(s[i]))
  }

  /** An ASCII capital becomes the letter 32 code points above it, its lower case. */
  lemma LowerCapitals(s: string)
    ensures forall i :: 0 <= i < |s| && 'A' <= s[i] <= 'Z' ==> Lower(s)[i] as int == s[i] as int + 32
  {
  }

  /** `String.prototype.includes`: `t` occurs in `s` at some offset. */
  predicate Contains(s: string, t: string)
    ensures Contains(s, t) ==> |t| <= |s|
    ensures t == "" ==> Contains(s, t)
  {
    t <= s || (|s| > 0 && Contains(s[1..], t))
  }

  /** `t` occurs in `s` starting at offset `i`. */
  predicate OccursAt(s: string, t: string, i: int) {
    0 <= i <= |s| - |t| && s[i..i + |t|] == t
  }

  /** `Contains` holds exactly when there is an offset at which `t` occurs. */
  lemma ContainsIsOccurrence(s: string, t: string)
    ensures Contains(s, t) <==> exists i :: OccursAt(s, t, i)
  {
    if Contains(s, t) {
      ContainsHasOffset(s, t);
    }
    forall i | OccursAt(s, t, i) ensures Contains(s, t) {
      OffsetIsContained(s, t, i);
    }
  }

  lemma {:induction false} ContainsHasOffset(s: string, t: string)
    requires Contains(s, t)
    ensures exists i :: OccursAt(s, t, i)
  {
    if t <= s {
      assert OccursAt(s, t, 0);
    } else {
      ContainsHasOffset(s[1..], t);
      var i :| OccursAt(s[1..], t, i);
      assert s[i + 1..i + 1 + |t|] == s[1..][i..i + |t|];
      assert OccursAt(s, t, i + 1);
    }
  }

  lemma {:induction false} OffsetIsContained(s: string, t: string, i: int)
    requires OccursAt(s, t, i)
    ensures Contains(s, t)
    decreases i
  {
    if i == 0 {
      assert s[..|t|] == s[0..0 + |t|];
    } else {
      var u := s[1..];
      assert u[i - 1..i - 1 + |t|] == s[i..i + |t|];
      OffsetIsContained(u, t, i - 1);
    }
  }

  /** The empty search term is contained in every string. */
  lemma EmptyIsContained(s: string)
    ensures Contains(s, "")
  {
  }

  /** Number of occurrences of `c` in `s`. */
  function Count(s: string, c: char): nat {
    if s == [] then 0 else (if s[0] == c then 1 else 0) + Count(s[1..], c)
  }

  /** `s.split(c)` for a one-character separator: the pieces between occurrences of
      `c`; there is always one more piece than there are separators, and no piece
      contains the separator. */
  function Split(s: string, c: char): (r: seq<string>)
    ensures |r| == Count(s, c) + 1
    ensures forall i :: 0 <= i < |r| ==> c !in r[i]
  {
    if s == [] then [""]
    else
      var rest := Split(s[1..], c);
      if s[0] == c then [""] + rest
      else [[s[0]] + rest[0]] + rest[1..]
  }

  /** `parts.join(sep)`; the join of no parts is the empty string. */
  function Join(parts: seq<string>, sep: string): string {
    if |parts| == 0 then ""
    else if |parts| == 1 then parts[0]
    else parts[0] + sep + Join(parts[1..], sep)
  }

  /** A join starts with its first part, followed by the separator when there are
      more parts, and is as long as all parts plus one separator between each two. */
  lemma {:induction false} JoinShape(parts: seq<string>, sep: string)
    ensures |parts| == 0 ==> Join(parts, sep) == ""
    ensures |parts| > 0 ==> parts[0] <= Join(parts, sep)
    ensures |parts| > 1 ==> parts[0] + sep <= Join(parts, sep)
    ensures |parts| > 0 ==> |Join(parts, sep)| == TotalLength(parts) + (|parts| - 1) * |sep|
  {
    if |parts| > 1 {
      JoinShape(parts[1..], sep);
      var r := Join(parts, sep);
      assert r == (parts[0] + sep) + Join(parts[1..], sep);
      assert r[..|parts[0] + sep|] == parts[0] + sep;
      assert r[..|parts[0]|] == parts[0];
      assert TotalLength(parts) == |parts[0]| + TotalLength(parts[1..]);
    } else if |parts| == 1 {
      assert TotalLength(parts) == |parts[0]| + TotalLength(parts[1..]);
    }
  }

  /** The summed length of all parts. */
  function TotalLength(parts: seq<string>): nat {
    if parts == [] then 0 else |parts[0]| + TotalLength(parts[1..])
  }

  /** Splitting and joining back with the same separator gives the string back. */
  lemma {:induction false} JoinSplit(s: string, c: char)
    ensures Join(Split(s, c), [c]) == s
  {
    if s != [] {
      var rest := Split(s[1..], c);
      JoinSplit(s[1..], c);
      if s[0] == c {
        assert Split(s, c) == [""] + rest;
        assert Join([""] + rest, [c]) == "" + [c] + Join(rest, [c]) by {
          assert ([""] + rest)[1..] == rest;
        }
        assert s == [c] + s[1..];
      } else {
        var first := [[s[0]] + rest[0]];
        assert Split(s, c) == first + rest[1..];
        if |rest| == 1 {
          assert Join(first + rest[1..], [c]) == [s[0]] + rest[0];
          assert s == [s[0]] + s[1..];
        } else {
          assert Join(rest, [c]) == rest[0] + [c] + Join(rest[1..], [c]);
          assert (first + rest[1..])[1..] == rest[1..];
          assert Join(first + rest[1..], [c]) == [s[0]] + rest[0] + [c] + Join(rest[1..], [c]);
          assert s == [s[0]] + s[1..];
        }
      }
    }
  }

  /** A string free of the separator splits into itself alone. */
  lemma {:induction false} SplitWithoutSeparator(a: string, c: char)
    requires c !in a
    ensures Split(a, c) == [a]
  {
    if a != [] {
      SplitWithoutSeparator(a[1..], c);
      assert [a[0]] + a[1..] == a;
    }
  }

  /** Splitting `a + [c] + b`, where `a` is free of `c`, peels `a` off as the first piece. */
  lemma {:induction false} SplitAfterPiece(a: string, c: char, b: string)
    requires c !in a
    ensures Split(a + [c] + b, c) == [a] + Split(b, c)
  {
    var s := a + [c] + b;
    if a == [] {
      assert s[1..] == b;
    } else {
      assert s[1..] == a[1..] + [c] + b;
      SplitAfterPiece(a[1..], c, b);
      assert [a[0]] + a[1..] == a;
    }
  }

  /** Each part of `parts` with `pad` put in front of it. */
  function Padded(pad: string, parts: seq<string>): (r: seq<string>)
    ensures |r| == |parts|
    ensures forall i :: 0 <= i < |r| ==> r[i] == pad + parts[i]
  {
    if parts == [] then [] else [pad + parts[0]] + Padded(pad, parts[1..])
  }

  /** Joining with `[c] + pad` and splitting on `c` gives back the parts, each but the
      first still preceded by `pad`, provided no part and not `pad` contains `c`. */
  lemma {:induction false} SplitJoinPadded(parts: seq<string>, c: char, pad: string)
    requires |parts| >= 1
    requires forall i :: 0 <= i < |parts| ==> c !in parts[i]
    requires c !in pad
    ensures Split(Join(parts, [c] + pad), c) == [parts[0]] + Padded(pad, parts[1..])
  {
    if |parts| == 1 {
      SplitWithoutSeparator(parts[0], c);
    } else {
      var sep := [c] + pad;
      var tail := Join(parts[1..], sep);
      assert Join(parts, sep) == parts[0] + [c] + (pad + tail);
      SplitAfterPiece(parts[0], c, pad + tail);
      SplitJoinPadded(parts[1..], c, pad);
      var inner := Split(tail, c);
      assert inner == [parts[1]] + Padded(pad, parts[2..]) by {
        assert parts[1..][0] == parts[1] && parts[1..][1..] == parts[2..];
      }
      // The pad sits in front of the first piece of the tail.
      assert Split(pad + tail, c) == [pad + parts[1]] + Padded(pad, parts[2..]) by {
        PadJoinsFirstPiece(pad, tail, c);
      }
      assert Padded(pad, parts[1..]) == [pad + parts[1]] + Padded(pad, parts[2..]) by {
        assert parts[1..][1..] == parts[2..];
      }
    }
  }

  /** A separator-free prefix joins the first piece. */
  lemma {:induction false} PadJoinsFirstPiece(pad: string, s: string, c: char)
    requires c !in pad
    ensures Split(pad + s, c) == [pad + Split(s, c)[0]] + Split(s, c)[1..]
  {
    if pad != [] {
      PadJoinsFirstPiece(pad[1..], s, c);
      var whole := pad + s;
      assert whole[0] == pad[0] && pad[0] != c;
      assert whole[1..] == pad[1..] + s;
      var rest := Split(pad[1..] + s, c);
      assert Split(whole, c) == [[pad[0]] + rest[0]] + rest[1..];
      assert rest[0] == pad[1..] + Split(s, c)[0];
      assert rest[1..] == Split(s, c)[1..];
      assert [pad[0]] + (pad[1..] + Split(s, c)[0]) == pad + Split(s, c)[0];
    } else {
      assert pad + s == s && pad + Split(s, c)[0] == Split(s, c)[0];
      assert Split(s, c) == [Split(s, c)[0]] + Split(s, c)[1..];
    }
  }

  /** The collation used for `localeCompare`: lexicographic order on code points,
      the empty string first. */
  predicate NameLe(a: string, b: string)
    ensures a <= b ==> NameLe(a, b)
    ensures NameLe(a, b) && a != [] ==> b != [] && a[0] <= b[0]
  {
    if a == [] then true
    else if b == [] then false
    else if a[0] != b[0] then a[0] < b[0]
    else NameLe(a[1..], b[1..])
  }

  lemma {:induction false} NameLeTotal(a: string, b: string)
    ensures NameLe(a, b) || NameLe(b, a)
  {
    if a != [] && b != [] && a[0] == b[0] {
      NameLeTotal(a[1..], b[1..]);
    }
  }

  lemma {:induction false} NameLeTransitive(a: string, b: string, c: string)
    requires NameLe(a, b) && NameLe(b, c)
    ensures NameLe(a, c)
  {
    if a != [] && b != [] && c != [] && a[0] == b[0] && b[0] == c[0] {
      NameLeTransitive(a[1..], b[1..], c[1..]);
    }
  }

  lemma {:induction false} NameLeAntisymmetric(a: string, b: string)
    requires NameLe(a, b) && NameLe(b, a)
    ensures a == b
  {
    if a != [] && b != [] {
      NameLeAntisymmetric(a[1..], b[1..]);
      assert a == [a[0]] + a[1..] && b == [b[0]] + b[1..];
    }
  }
}
