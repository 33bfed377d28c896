/**
 * The java.lang.String operations the conversion relies on, written out:
 * `split` on a one-character separator (trailing empty strings dropped),
 * `String.join`, `trim`, ASCII case folding and decimal rendering of an int.
 */
module Text {

  /** The characters `String.trim` removes: every char up to U+0020. */
  predicate IsTrimmed(ch: char) {
    ch <= ' '
  }

  /** The first position at or after `i` that holds a character `trim` keeps. */
  function Lead(s: string, i: nat): (r: nat)
    requires i <= |s|
    ensures i <= r <= |s|
    decreases |s| - i
  {
    if i < |s| && IsTrimmed(s[i]) then Lead(s, i + 1) else i
  }

  /** `Lead` skips exactly the trimmable characters before the first kept one. */
  lemma {:induction false} LeadSound(s: string, i: nat)
    requires i <= |s|
    ensures forall k :: i <= k < Lead(s, i) ==> IsTrimmed(s[k])
    ensures Lead(s, i) < |s| ==> !IsTrimmed(s[Lead(s, i)])
    decreases |s| - i
  {
    if i < |s| && IsTrimmed(s[i]) {
      LeadSound(s, i + 1);
    }
  }

  /** The end of `s[lo..j]` once its trailing trimmable characters are dropped. */
  function Tail(s: string, lo: nat, j: nat): (r: nat)
    requires lo <= j <= |s|
    ensures lo <= r <= j
  {
    if j > lo && IsTrimmed(s[j - 1]) then Tail(s, lo, j - 1) else j
  }

  /** `Tail` drops exactly the trimmable characters after the last kept one. */
  lemma {:induction false} TailSound(s: string, lo: nat, j: nat)
    requires lo <= j <= |s|
    ensures forall k :: Tail(s, lo, j) <= k < j ==> IsTrimmed(s[k])
    ensures Tail(s, lo, j) > lo ==> !IsTrimmed(s[Tail(s, lo, j) - 1])
  {
    if j > lo && IsTrimmed(s[j - 1]) {
      TailSound(s, lo, j - 1);
    }
  }

  /** How many characters `trim` removes from the front of `s`. */
  function TrimOffset(s: string): nat
    ensures TrimOffset(s) <= |s|
  {
    Lead(s, 0)
  }

  /** Java's `String.trim()`: `s` without its leading and trailing characters up to U+0020. */
  function Trim(s: string): (r: string)
    ensures |r| <= |s|
  {
    var a := Lead(s, 0);
    s[a..Tail(s, a, |s|)]
  }

  /**
   * The result of `trim` is the part of `s` between a blank prefix and a blank
   * suffix, and is itself neither blank-led nor blank-ended.
   */
  lemma TrimShape(s: string)
    ensures TrimOffset(s) + |Trim(s)| <= |s| && Trim(s) == s[TrimOffset(s)..TrimOffset(s) + |Trim(s)|]
    ensures forall k :: 0 <= k < TrimOffset(s) ==> IsTrimmed(s[k])
    ensures forall k :: TrimOffset(s) + |Trim(s)| <= k < |s| ==> IsTrimmed(s[k])
    ensures Trim(s) != [] ==> !IsTrimmed(Trim(s)[0]) && !IsTrimmed(Trim(s)[|Trim(s)| - 1])
  {
    var a := Lead(s, 0);
    LeadSound(s, 0);
    TailSound(s, a, |s|);
  }

  /** Trimming a trimmed string changes nothing. */
  lemma TrimIdempotent(s: string)
    ensures Trim(Trim(s)) == Trim(s)
  {
    var r := Trim(s);
    TrimShape(s);
    assert Lead(r, 0) == 0;
    assert Tail(r, 0, |r|) == |r|;
    assert r[0..|r|] == r;
  }

  /** The separator-free pieces of `s`, empty pieces included (no dropping). */
  function Pieces(s: string, sep: char): (r: seq<string>)
    ensures |r| >= 1
  {
    if |s| == 0 then [""]
    else
      var rest := Pieces(s[1..], sep);
      if s[0] == sep then [""] + rest
      else [[s[0]] + rest[0]] + rest[1..]
  }

  /** No piece contains the separator. */
  lemma {:induction false} PiecesSeparatorFree(s: string, sep: char)
    ensures forall i :: 0 <= i < |Pieces(s, sep)| ==> sep !in Pieces(s, sep)[i]
  {
    if |s| > 0 {
      PiecesSeparatorFree(s[1..], sep);
      var rest := Pieces(s[1..], sep);
      if s[0] != sep {
        assert sep !in [s[0]] + rest[0];
      }
    }
  }

  /** Java's `String.join(sep, parts)`. */
  function Join(parts: seq<string>, sep: char): string
  {
    if |parts| == 0 then ""
    else if |parts| == 1 then parts[0]
    else parts[0] + [sep] + Join(parts[1..], sep)
  }

  /** Joining the pieces of `s` back together gives `s`. */
  lemma {:induction false} JoinPieces(s: string, sep: char)
    ensures Join(Pieces(s, sep), sep) == s
  {
    if |s| > 0 {
      var rest := Pieces(s[1..], sep);
      JoinPieces(s[1..], sep);
      if s[0] == sep {
        assert Pieces(s, sep) == [""] + rest;
        assert ([""] + rest)[1..] == rest;
      } else {
        var p := Pieces(s, sep);
        assert p == [[s[0]] + rest[0]] + rest[1..];
        if |rest| == 1 {
          assert Join(p, sep) == [s[0]] + rest[0];
        } else {
          assert p[1..] == rest[1..];
          assert Join(rest, sep) == rest[0] + [sep] + Join(rest[1..], sep);
          assert Join(p, sep) == [s[0]] + rest[0] + [sep] + Join(rest[1..], sep);
        }
      }
    }
  }

  /** The number of occurrences of `sep` in `s`. */
  function Occurrences(s: string, sep: char): nat
  {
    if |s| == 0 then 0 else (if s[0] == sep then 1 else 0) + Occurrences(s[1..], sep)
  }

  /** `s` has as many pieces as separators plus one. */
  lemma {:induction false} PiecesCount(s: string, sep: char)
    ensures |Pieces(s, sep)| == Occurrences(s, sep) + 1
  {
    if |s| > 0 {
      PiecesCount(s[1..], sep);
    }
  }

  /** `parts` without its trailing empty strings. */
  function DropTrailingEmpty(parts: seq<string>): (r: seq<string>)
    ensures |r| <= |parts|
  {
    if |parts| > 0 && parts[|parts| - 1] == "" then DropTrailingEmpty(parts[..|parts| - 1])
    else parts
  }

  /** What is dropped is a run of empty strings at the end, and what is kept does not end in one. */
  lemma {:induction false} DropTrailingEmptySound(parts: seq<string>)
    ensures var r := DropTrailingEmpty(parts);
      && r == parts[..|r|]
      && (r == [] || r[|r| - 1] != "")
      && forall i :: |r| <= i < |parts| ==> parts[i] == ""
  {
    if |parts| > 0 && parts[|parts| - 1] == "" {
      var init := parts[..|parts| - 1];
      DropTrailingEmptySound(init);
      var r := DropTrailingEmpty(init);
      assert init[..|r|] == parts[..|r|];
      forall i | |r| <= i < |parts|
        ensures parts[i] == ""
      {
        if i < |parts| - 1 {
          assert parts[i] == init[i];
        }
      }
    } else {
      assert parts[..|parts|] == parts;
    }
  }

  /**
   * Java's `s.split(sep)` for a separator that is not a regular-expression
   * metacharacter: when `sep` does not occur the result is `[s]` (even for the
   * empty string); otherwise the pieces with all trailing empty strings dropped.
   */
  function Split(s: string, sep: char): (r: seq<string>)
    ensures sep !in s ==> r == [s]
  {
    if sep !in s then [s]
    else DropTrailingEmpty(Pieces(s, sep))
  }

  /**
   * The parts never contain the separator, and when it occurs the last part
   * kept is not empty.
   */
  lemma SplitSound(s: string, sep: char)
    ensures sep in s ==> Split(s, sep) == [] || Split(s, sep)[|Split(s, sep)| - 1] != ""
    ensures forall i :: 0 <= i < |Split(s, sep)| ==> sep !in Split(s, sep)[i]
  {
    if sep in s {
      var p := Pieces(s, sep);
      PiecesSeparatorFree(s, sep);
      DropTrailingEmptySound(p);
      var r := DropTrailingEmpty(p);
      forall i | 0 <= i < |r|
        ensures sep !in r[i]
      {
        assert r[i] == p[i];
      }
    }
  }

  /** A string without the separator is its own only piece. */
  lemma {:induction false} NoSeparatorOnePiece(s: string, sep: char)
    requires sep !in s
    ensures Pieces(s, sep) == [s]
  {
    if |s| > 0 {
      assert sep !in s[1..];
      NoSeparatorOnePiece(s[1..], sep);
      assert [s[0]] + s[1..] == s;
    }
  }

  /** The parts `split` returns are, in order, the leading pieces of `s`. */
  lemma SplitIsPrefixOfPieces(s: string, sep: char)
    ensures Split(s, sep) == Pieces(s, sep)[..|Split(s, sep)|]
  {
    if sep !in s {
      NoSeparatorOnePiece(s, sep);
    } else {
      DropTrailingEmptySound(Pieces(s, sep));
    }
  }

  /** Java's `s.toLowerCase()` restricted to ASCII letters. */
  function AsciiLower(s: string): (r: string)
    ensures |r| == |s|
  {
    if |s| == 0 then "" else [LowerChar(s[0])] + AsciiLower(s[1..])
  }

  /** Each upper-case ASCII letter is lowered and every other character kept. */
  lemma {:induction false} AsciiLowerSound(s: string)
    ensures forall i :: 0 <= i < |s| ==>
      AsciiLower(s)[i] == (if 'A' <= s[i] <= 'Z' then (s[i] as int + 32) as char else s[i])
  {
    if |s| > 0 {
      AsciiLowerSound(s[1..]);
      forall i | 0 < i < |s|
        ensures AsciiLower(s)[i] == AsciiLower(s[1..])[i - 1]
      {
      }
    }
  }

  function LowerChar(ch: char): char {
    if 'A' <= ch <= 'Z' then (ch as int + 32) as char else ch
  }

  /** Java's `a.equalsIgnoreCase(b)` for ASCII strings. */
  predicate EqualsIgnoreCase(a: string, b: string) {
    AsciiLower(a) == AsciiLower(b)
  }

  /** Decimal rendering of a non-negative Java int, as `"" + n` gives it. */
  function NatToString(n: nat): (r: string)
    ensures |r| >= 1
    ensures |r| > 1 ==> r[0] != '0'
  {
    if n < 10 then [Digit(n)] else NatToString(n / 10) + [Digit(n % 10)]
  }

  /** The rendering consists of decimal digits only. */
  lemma {:induction false} NatToStringDigits(n: nat)
    ensures forall i :: 0 <= i < |NatToString(n)| ==> '0' <= NatToString(n)[i] <= '9'
  {
    if n >= 10 {
      NatToStringDigits(n / 10);
      var r := NatToString(n);
      forall i | 0 <= i < |r| - 1
        ensures r[i] == NatToString(n / 10)[i]
      {
      }
    }
  }

  function Digit(d: nat): (ch: char)
    requires d < 10
    ensures '0' <= ch <= '9'
  {
    ('0' as int + d) as char
  }

  /** The value of a string of decimal digits, each character read as its distance from '0'. */
  function DigitsValue(s: string): int
  {
    if |s| == 0 then 0 else DigitsValue(s[..|s| - 1]) * 10 + (s[|s| - 1] as int - '0' as int)
  }

  /** Rendering is injective: reading the digits back gives the number. */
  lemma {:induction false} NatToStringRoundTrip(n: nat)
    ensures DigitsValue(NatToString(n)) == n
  {
    if n >= 10 {
      NatToStringRoundTrip(n / 10);
      var r := NatToString(n);
      assert r[..|r| - 1] == NatToString(n / 10);
    }
  }
}
