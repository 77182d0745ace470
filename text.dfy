/**
 * String handling of the handlers: the trimmed, upper-cased room code of
 * `join_room`, the default display name that replaces an empty one, and the
 * 40-character cut that `rename` applies.
 *
 * Some lemmas here that make no recursive call carry `{:induction false}`
 * all the same: it stops Dafny from adding induction hypotheses of its own
 * to their proof obligations, which keeps those proofs within the solver's
 * resource budget.
 */
module Text {

  /** ECMAScript WhiteSpace and LineTerminator code points, which `trim` strips. */
  predicate IsSpace(c: char)
  {
    c == ' ' || c == '\t' || c == '\n' || c == '\r'
    || c as int == 0x0B || c as int == 0x0C || c as int == 0xA0 || c as int == 0x1680
    || (0x2000 <= c as int <= 0x200A)
    || c as int == 0x2028 || c as int == 0x2029 || c as int == 0x202F
    || c as int == 0x205F || c as int == 0x3000 || c as int == 0xFEFF
  }

  /** True of a string with no whitespace at either end. */
  predicate Trimmed(s: string)
  {
    s == [] || (!IsSpace(s[0]) && !IsSpace(s[|s| - 1]))
  }

  /** Leading whitespace removed: the longest suffix of `s` that starts with a non-space. */
  function TrimStart(s: string): (r: string)
    ensures |r| <= |s| && r == s[|s| - |r|..]
    ensures forall i :: 0 <= i < |s| - |r| ==> IsSpace(s[i])
    ensures r == [] || !IsSpace(r[0])
  {
    if |s| > 0 && IsSpace(s[0]) then TrimStart(s[1..]) else s
  }

  /** Trailing whitespace removed: the longest prefix of `s` that ends with a non-space. */
  function TrimEnd(s: string): (r: string)
    ensures |r| <= |s| && r == s[..|r|]
    ensures forall i :: |r| <= i < |s| ==> IsSpace(s[i])
    ensures r == [] || !IsSpace(r[|r| - 1])
  {
    if |s| > 0 && IsSpace(s[|s| - 1]) then TrimEnd(s[..|s| - 1]) else s
  }

  /** `String.prototype.trim`. */
  function Trim(s: string): (r: string)
    ensures Trimmed(r)
    ensures r == [] <==> forall i :: 0 <= i < |s| ==> IsSpace(s[i])
  {
    var t := TrimStart(s);
    TrimEndsOfSuffix(s, t);
    TrimEnd(t)
  }

  /** What trimming both ends of `s` leaves, given `t`, the result of trimming its start. */
  lemma TrimEndsOfSuffix(s: string, t: string)
    requires t == TrimStart(s)
    ensures Trimmed(TrimEnd(t))
    ensures TrimEnd(t) == [] <==> forall i :: 0 <= i < |s| ==> IsSpace(s[i])
  {
    var r := TrimEnd(t);
    if r != [] {
      assert r[0] == t[0];
    } else {
      assert t == [];
    }
  }

  /** Upper-case of one character: ASCII letters only. */
  function UpperChar(c: char): char
  {
    if 'a' <= c <= 'z' then (c as int - 'a' as int + 'A' as int) as char else c
  }

  /** `String.prototype.toUpperCase`, restricted to the ASCII letters. */
  function ToUpper(s: string): (r: string)
    ensures |r| == |s|
    ensures forall i :: 0 <= i < |s| ==> r[i] == UpperChar(s[i])
  {
    seq(|s|, i requires 0 <= i < |s| => UpperChar(s[i]))
  }

  /** The room code a `join_room` payload names. */
  function NormalizeCode(roomCode: string): (r: string)
    ensures |r| == |Trim(roomCode)|
  {
    ToUpper(Trim(roomCode))
  }

  /** Upper-casing neither creates nor removes whitespace, leaves no lower-case ASCII letter, and changes nothing else. */
  lemma UpperCharShape(c: char)
    ensures IsSpace(UpperChar(c)) <==> IsSpace(c)
    ensures !('a' <= UpperChar(c) <= 'z')
    ensures !('a' <= c <= 'z') ==> UpperChar(c) == c
  {
  }

  /** Upper-casing a trimmed string leaves it trimmed. */
  lemma {:induction false} UpperKeepsTrimmed(t: string)
    requires Trimmed(t)
    ensures Trimmed(ToUpper(t))
  {
    if t != [] {
      UpperCharShape(t[0]);
      UpperCharShape(t[|t| - 1]);
    }
  }

  /** An upper-cased string holds no lower-case ASCII letter. */
  lemma {:induction false} UpperHasNoLower(t: string)
    ensures forall i :: 0 <= i < |ToUpper(t)| ==> !('a' <= ToUpper(t)[i] <= 'z')
  {
    forall i | 0 <= i < |ToUpper(t)| ensures !('a' <= ToUpper(t)[i] <= 'z') {
      UpperCharShape(t[i]);
    }
  }

  /** A normalised code has no whitespace at its ends and no lower-case ASCII letter. */
  lemma {:induction false} NormalizeCodeShape(roomCode: string)
    ensures Trimmed(NormalizeCode(roomCode))
    ensures forall i :: 0 <= i < |NormalizeCode(roomCode)| ==> !('a' <= NormalizeCode(roomCode)[i] <= 'z')
    ensures NormalizeCode(roomCode) == [] <==> forall i :: 0 <= i < |roomCode| ==> IsSpace(roomCode[i])
  {
    var t := Trim(roomCode);
    UpperKeepsTrimmed(t);
    UpperHasNoLower(t);
  }

  /** A trimmed string has nothing to trim. */
  lemma TrimTrimmed(u: string)
    requires Trimmed(u)
    ensures Trim(u) == u
  {
    assert TrimStart(u) == u;
    assert TrimEnd(u) == u;
  }

  /** A string without lower-case ASCII letters has nothing to upper-case. */
  lemma {:induction false} UpperWithoutLower(u: string)
    requires forall i :: 0 <= i < |u| ==> !('a' <= u[i] <= 'z')
    ensures ToUpper(u) == u
  {
    forall i | 0 <= i < |u| ensures UpperChar(u[i]) == u[i] {
      UpperCharShape(u[i]);
    }
  }

  /** Nothing is left to trim or to upper-case in a normalised code. */
  lemma {:induction false} NormalizeCodeIdempotent(roomCode: string)
    ensures NormalizeCode(NormalizeCode(roomCode)) == NormalizeCode(roomCode)
  {
    var t := Trim(roomCode);
    var u := ToUpper(t);
    assert NormalizeCode(roomCode) == u;
    UpperKeepsTrimmed(t);
    UpperHasNoLower(t);
    TrimTrimmed(u);
    UpperWithoutLower(u);
    assert NormalizeCode(u) == ToUpper(Trim(u)) == ToUpper(u);
  }

  // ---- Case pairing, independent of UpperChar ----

  /** The ASCII lower-case alphabet. */
  function Lowers(): string
  {
    "abcdefghijklmnopqrstuvwxyz"
  }

  /** The ASCII capitals, in the same order. */
  function Capitals(): string
  {
    "ABCDEFGHIJKLMNOPQRSTUVWXYZ"
  }

  /** Two characters that are equal, or a lower-case letter and its capital. */
  predicate SameIgnoringCase(a: char, b: char)
  {
    a == b
    || exists k :: 0 <= k < 26 && ((a == Lowers()[k] && b == Capitals()[k]) || (a == Capitals()[k] && b == Lowers()[k]))
  }

  /** The k-th letter of each alphabet. */
  lemma AlphabetAt(k: int)
    requires 0 <= k < 26
    ensures |Lowers()| == 26 && |Capitals()| == 26
    ensures Lowers()[k] as int == 'a' as int + k
    ensures Capitals()[k] as int == 'A' as int + k
  {
  }

  /** A lower-case letter becomes its own capital. */
  lemma UpperCharCapital(c: char)
    requires 'a' <= c <= 'z'
    ensures Lowers()[c as int - 'a' as int] == c
    ensures UpperChar(c) == Capitals()[c as int - 'a' as int]
  {
    AlphabetAt(c as int - 'a' as int);
  }

  /** Characters that upper-case alike are the same letter up to case. */
  lemma UpperCharSameOnly(a: char, b: char)
    requires UpperChar(a) == UpperChar(b)
    ensures SameIgnoringCase(a, b)
  {
    if a != b {
      if 'a' <= a <= 'z' {
        UpperCharCapital(a);
        var k := a as int - 'a' as int;
        assert a == Lowers()[k] && b == Capitals()[k];
      } else {
        UpperCharCapital(b);
        var k := b as int - 'a' as int;
        assert a == Capitals()[k] && b == Lowers()[k];
      }
    }
  }

  /** A letter and its capital upper-case alike. */
  lemma UpperCharSameIf(a: char, b: char)
    requires SameIgnoringCase(a, b)
    ensures UpperChar(a) == UpperChar(b)
  {
    if a != b {
      var k :| 0 <= k < 26 && ((a == Lowers()[k] && b == Capitals()[k]) || (a == Capitals()[k] && b == Lowers()[k]));
      AlphabetAt(k);
    }
  }

  /** Two characters upper-case alike exactly when they are the same letter up to case. */
  lemma UpperCharSameIff(a: char, b: char)
    ensures UpperChar(a) == UpperChar(b) <==> SameIgnoringCase(a, b)
  {
    if UpperChar(a) == UpperChar(b) {
      UpperCharSameOnly(a, b);
    }
    if SameIgnoringCase(a, b) {
      UpperCharSameIf(a, b);
    }
  }

  /** Room codes coincide after upper-casing exactly when they differ at most in ASCII letter case. */
  lemma {:induction false} ToUpperSameIff(x: string, y: string)
    ensures ToUpper(x) == ToUpper(y) <==> |x| == |y| && forall i :: 0 <= i < |x| ==> SameIgnoringCase(x[i], y[i])
  {
    if |x| == |y| {
      forall i | 0 <= i < |x| ensures ToUpper(x)[i] == ToUpper(y)[i] <==> SameIgnoringCase(x[i], y[i]) {
        UpperCharSameIff(x[i], y[i]);
      }
      if forall i :: 0 <= i < |x| ==> SameIgnoringCase(x[i], y[i]) {
        assert ToUpper(x) == ToUpper(y);
      }
    }
  }

  const DefaultName := "Player"

  const MaxNameLength := 40

  /** A display name: the empty name falls back to the default. */
  function NameOrDefault(name: string): (r: string)
    ensures r != []
    ensures name == [] ==> r == DefaultName
    ensures name != [] ==> r == name
  {
    if name == "" then DefaultName else name
  }

  /** The first 40 characters, or the whole string when it is shorter. */
  function Truncate(s: string): (r: string)
    ensures |r| <= MaxNameLength
    ensures |r| <= |s| && r == s[..|r|]
    ensures |s| <= MaxNameLength ==> r == s
    ensures |s| > MaxNameLength ==> |r| == MaxNameLength
  {
    if |s| <= MaxNameLength then s else s[..MaxNameLength]
  }
}
