/**
 * Character-level helpers used by both wire codecs: Rust's `str::split` on one
 * character, `str::split_ascii_whitespace`, `char::is_ascii_whitespace`, and
 * unsigned decimal numbers as `FromStr` reads them and `Display` writes them,
 * and the UTF-8 length of text, which `str::len` and `Read::read_exact` count.
 */
module Text {
  import opened Basics

  /** `char::is_ascii_whitespace`: space, tab, line feed, form feed, carriage return. */
  predicate IsAsciiWhitespace(c: char) {
    c == ' ' || c == '\t' || c == '\n' || c == '\U{0C}' || c == '\r'
  }

  // ---------------------------------------------------------------------------
  // UTF-8 lengths

  /** The number of bytes of `c` in UTF-8, which is what `str::len` counts. */
  function Utf8Len(c: char): (n: nat)
    ensures 1 <= n <= 4
    ensures n == 1 <==> (c as int) < 0x80
  {
    if (c as int) < 0x80 then 1
    else if (c as int) < 0x800 then 2
    else if (c as int) < 0x10000 then 3
    else 4
  }

  /** `str::len`: the length of `s` in bytes. */
  function ByteLen(s: string): (n: nat)
    ensures n >= |s|
    decreases |s|
  {
    if |s| == 0 then 0 else Utf8Len(s[0]) + ByteLen(s[1..])
  }

  predicate IsAscii(s: string) {
    forall i :: 0 <= i < |s| ==> (s[i] as int) < 0x80
  }

  lemma {:induction false} ByteLenAscii(s: string)
    requires IsAscii(s)
    ensures ByteLen(s) == |s|
    decreases |s|
  {
    if |s| > 0 {
      ByteLenAscii(s[1..]);
    }
  }

  /** The bytes of a slice: those of its first character, then those of the rest. */
  lemma ByteLenSlice(data: string, pos: nat, end: nat)
    requires pos < end <= |data|
    ensures ByteLen(data[pos..end]) == Utf8Len(data[pos]) + ByteLen(data[pos + 1..end])
  {
    assert data[pos..end][1..] == data[pos + 1..end];
  }

  // ---------------------------------------------------------------------------
  // str::split(sep)

  /** The pieces of `s` between occurrences of `sep`; there is always at least one. */
  function Split(s: string, sep: char): (parts: seq<string>)
    ensures |parts| >= 1
    ensures forall i :: 0 <= i < |parts| ==> sep !in parts[i]
    decreases |s|
  {
    if |s| == 0 then [""]
    else
      var rest := Split(s[1..], sep);
      if s[0] == sep then [""] + rest
      else [[s[0]] + rest[0]] + rest[1..]
  }

  /** The pieces put back together with `sep` between neighbours. */
  function Join(parts: seq<string>, sep: char): string
    decreases |parts|
  {
    if |parts| == 0 then ""
    else if |parts| == 1 then parts[0]
    else parts[0] + [sep] + Join(parts[1..], sep)
  }

  /** The pieces one after another, with nothing between them. */
  function Concat(parts: seq<string>): string
    decreases |parts|
  {
    if |parts| == 0 then "" else parts[0] + Concat(parts[1..])
  }

  lemma StringAssoc(x: string, y: string, z: string)
    ensures x + (y + z) == x + y + z
  {
  }

  /** Concatenating two runs of pieces is concatenating each, then the results. */
  lemma {:induction false} ConcatAppend(a: seq<string>, b: seq<string>)
    ensures Concat(a + b) == Concat(a) + Concat(b)
    decreases |a|
  {
    if |a| == 0 {
      assert a + b == b;
    } else {
      assert (a + b)[0] == a[0] && (a + b)[1..] == a[1..] + b;
      ConcatAppend(a[1..], b);
      StringAssoc(a[0], Concat(a[1..]), Concat(b));
    }
  }

  /** The pieces up to the `i`-th: those before it, then it. */
  lemma ConcatSnoc(parts: seq<string>, i: nat)
    requires i < |parts|
    ensures Concat(parts[..i + 1]) == Concat(parts[..i]) + parts[i]
  {
    assert parts[..i + 1] == parts[..i] + [parts[i]];
    ConcatAppend(parts[..i], [parts[i]]);
    assert Concat([parts[i]]) == parts[i];
  }

  /** The pieces: the first `k`, then the others. */
  lemma ConcatSplit(parts: seq<string>, k: nat)
    requires k <= |parts|
    ensures Concat(parts) == Concat(parts[..k]) + Concat(parts[k..])
  {
    assert parts == parts[..k] + parts[k..];
    ConcatAppend(parts[..k], parts[k..]);
  }

  /** Joining the pieces of a split gives back the original string. */
  lemma {:induction false} JoinSplit(s: string, sep: char)
    ensures Join(Split(s, sep), sep) == s
    decreases |s|
  {
    if |s| > 0 {
      JoinSplit(s[1..], sep);
      var rest := Split(s[1..], sep);
      if s[0] == sep {
        assert [""] + rest == [""] + rest;
        assert s == [sep] + s[1..];
      } else {
        var parts := [[s[0]] + rest[0]] + rest[1..];
        if |rest| == 1 {
          assert Join(parts, sep) == [s[0]] + rest[0];
          assert s == [s[0]] + s[1..];
        } else {
          assert parts[1..] == rest[1..];
          assert Join(rest, sep) == rest[0] + [sep] + Join(rest[1..], sep);
          assert s == [s[0]] + s[1..];
        }
      }
    }
  }

  /** A piece free of the separator, followed by the separator, splits off as one piece. */
  lemma {:induction false} SplitCons(a: string, sep: char, rest: string)
    requires sep !in a
    ensures Split(a + [sep] + rest, sep) == [a] + Split(rest, sep)
    decreases |a|
  {
    if |a| == 0 {
      assert a + [sep] + rest == [sep] + rest;
      assert ([sep] + rest)[1..] == rest;
    } else {
      var s := a + [sep] + rest;
      assert s[1..] == a[1..] + [sep] + rest;
      SplitCons(a[1..], sep, rest);
      assert [a[0]] + a[1..] == a;
    }
  }

  /** A string free of the separator is its own single piece. */
  lemma {:induction false} SplitNone(a: string, sep: char)
    requires sep !in a
    ensures Split(a, sep) == [a]
    decreases |a|
  {
    if |a| > 0 {
      SplitNone(a[1..], sep);
      assert [a[0]] + a[1..] == a;
    }
  }

  /** Splitting a join of separator-free pieces gives back the pieces. */
  lemma {:induction false} SplitJoin(parts: seq<string>, sep: char)
    requires |parts| >= 1
    requires forall i :: 0 <= i < |parts| ==> sep !in parts[i]
    ensures Split(Join(parts, sep), sep) == parts
    decreases |parts|
  {
    if |parts| == 1 {
      SplitNone(parts[0], sep);
    } else {
      SplitJoin(parts[1..], sep);
      SplitCons(parts[0], sep, Join(parts[1..], sep));
      assert [parts[0]] + parts[1..] == parts;
    }
  }

  /** Joining one more piece adds a separator and the piece. */
  lemma {:induction false} JoinSnoc(parts: seq<string>, last: string, sep: char)
    requires |parts| >= 1
    ensures Join(parts + [last], sep) == Join(parts, sep) + [sep] + last
    decreases |parts|
  {
    if |parts| > 1 {
      assert (parts + [last])[1..] == parts[1..] + [last];
      JoinSnoc(parts[1..], last, sep);
    }
  }

  /** A character other than the separator that is in none of the pieces is not in their join. */
  lemma {:induction false} JoinAvoids(parts: seq<string>, sep: char, c: char)
    requires c != sep && forall k :: 0 <= k < |parts| ==> c !in parts[k]
    ensures c !in Join(parts, sep)
    decreases |parts|
  {
    if |parts| > 1 {
      JoinAvoids(parts[1..], sep, c);
    }
  }

  // ---------------------------------------------------------------------------
  // str::split_ascii_whitespace

  /** The length of the run of non-whitespace characters that starts `s`. */
  function WordLen(s: string): (n: nat)
    ensures n <= |s|
    ensures forall k :: 0 <= k < n ==> !IsAsciiWhitespace(s[k])
    ensures n == |s| || IsAsciiWhitespace(s[n])
    decreases |s|
  {
    if |s| == 0 || IsAsciiWhitespace(s[0]) then 0 else 1 + WordLen(s[1..])
  }

  predicate IsWord(w: string) {
    |w| > 0 && forall k :: 0 <= k < |w| ==> !IsAsciiWhitespace(w[k])
  }

  /** The maximal runs of non-whitespace characters, in order; runs of whitespace separate them. */
  function Tokens(s: string): (ts: seq<string>)
    ensures forall i :: 0 <= i < |ts| ==> IsWord(ts[i])
    decreases |s|
  {
    if |s| == 0 then []
    else if IsAsciiWhitespace(s[0]) then Tokens(s[1..])
    else
      var n := WordLen(s);
      [s[..n]] + Tokens(s[n..])
  }

  /** A word followed by whitespace (or nothing) is the first token. */
  lemma {:induction false} TokensCons(w: string, rest: string)
    requires IsWord(w)
    requires rest == [] || IsAsciiWhitespace(rest[0])
    ensures Tokens(w + rest) == [w] + Tokens(rest)
  {
    var s := w + rest;
    WordLenOf(w, rest);
    assert s[..|w|] == w;
    assert s[|w|..] == rest;
  }

  lemma {:induction false} WordLenOf(w: string, rest: string)
    requires forall k :: 0 <= k < |w| ==> !IsAsciiWhitespace(w[k])
    requires rest == [] || IsAsciiWhitespace(rest[0])
    ensures WordLen(w + rest) == |w|
    decreases |w|
  {
    if |w| > 0 {
      assert (w + rest)[1..] == w[1..] + rest;
      WordLenOf(w[1..], rest);
    } else {
      assert w + rest == rest;
    }
  }

  /** Leading whitespace is skipped. */
  lemma TokensSkip(c: char, rest: string)
    requires IsAsciiWhitespace(c)
    ensures Tokens([c] + rest) == Tokens(rest)
  {
    assert ([c] + rest)[1..] == rest;
  }

  /** Whitespace alone holds no token. */
  lemma {:induction false} TokensBlank(t: string)
    requires forall k :: 0 <= k < |t| ==> IsAsciiWhitespace(t[k])
    ensures Tokens(t) == []
    decreases |t|
  {
    if |t| > 0 {
      TokensBlank(t[1..]);
    }
  }

  /** Words joined by single spaces, then only whitespace: the tokens are the words. */
  lemma {:induction false} TokensJoin(ws: seq<string>, tail: string)
    requires |ws| >= 1 && forall i :: 0 <= i < |ws| ==> IsWord(ws[i])
    requires forall k :: 0 <= k < |tail| ==> IsAsciiWhitespace(tail[k])
    ensures Tokens(Join(ws, ' ') + tail) == ws
    decreases |ws|
  {
    if |ws| == 1 {
      TokensCons(ws[0], tail);
      TokensBlank(tail);
    } else {
      var rest := Join(ws[1..], ' ') + tail;
      assert Join(ws, ' ') + tail == ws[0] + ([' '] + rest);
      TokensCons(ws[0], [' '] + rest);
      TokensSkip(' ', rest);
      TokensJoin(ws[1..], tail);
      assert [ws[0]] + ws[1..] == ws;
    }
  }

  // ---------------------------------------------------------------------------
  // char::from_str

  /** `char::from_str`: exactly one character. */
  function ParseChar(s: string): (r: Option<char>)
    ensures r.Some? <==> |s| == 1
    ensures r.Some? ==> s == [r.value]
  {
    if |s| == 1 then Some(s[0]) else None
  }

  // ---------------------------------------------------------------------------
  // Unsigned decimal numbers

  predicate IsDigit(c: char) {
    '0' <= c <= '9'
  }

  predicate AllDigits(s: string) {
    forall k :: 0 <= k < |s| ==> IsDigit(s[k])
  }

  function DigitValue(c: char): nat
    requires IsDigit(c)
  {
    c as int - '0' as int
  }

  function DigitChar(d: nat): (c: char)
    requires d < 10
    ensures IsDigit(c) && DigitValue(c) == d
  {
    (('0' as int) + d) as char
  }

  /** The value of a string of decimal digits, most significant first. */
  function DigitsValue(s: string): nat
    requires AllDigits(s)
    decreases |s|
  {
    if |s| == 0 then 0 else DigitsValue(s[..|s| - 1]) * 10 + DigitValue(s[|s| - 1])
  }

  /**
   * `FromStr` for an unsigned integer type whose largest value is `max`: an
   * optional `+`, then at least one ASCII digit, and the value in range.
   */
  function ParseUnsigned(s: string, max: nat): (r: Option<nat>)
    ensures r.Some? ==> r.value <= max
  {
    var digits := if |s| > 0 && s[0] == '+' then s[1..] else s;
    if |digits| == 0 || !AllDigits(digits) then None
    else if DigitsValue(digits) <= max then Some(DigitsValue(digits))
    else None
  }

  /** `Display` of an unsigned integer: decimal, no sign, no leading zeros. */
  function NatToString(n: nat): (s: string)
    ensures |s| > 0 && AllDigits(s)
  {
    if n < 10 then [DigitChar(n)] else NatToString(n / 10) + [DigitChar(n % 10)]
  }

  /** Reading back what `NatToString` wrote gives the number. */
  lemma {:induction false} DigitsValueOfNatToString(n: nat)
    ensures DigitsValue(NatToString(n)) == n
  {
    if n >= 10 {
      DigitsValueOfNatToString(n / 10);
      var s := NatToString(n);
      assert s[..|s| - 1] == NatToString(n / 10);
    }
  }

  /** Every in-range number written by `Display` is read back by `FromStr`. */
  lemma ParseUnsignedOfNatToString(n: nat, max: nat)
    requires n <= max
    ensures ParseUnsigned(NatToString(n), max) == Some(n)
  {
    DigitsValueOfNatToString(n);
  }

  /** Numbers have no whitespace, no dots and no line breaks in their text. */
  lemma NatToStringIsWord(n: nat)
    ensures IsWord(NatToString(n))
    ensures ' ' !in NatToString(n) && '.' !in NatToString(n) && '\n' !in NatToString(n)
  {
    var s := NatToString(n);
    assert forall k :: 0 <= k < |s| ==> IsDigit(s[k]);
  }
}
