/**
 * The buffered reader both codecs parse from: the text still to come and a
 * cursor into it. `read_line` and `read_exact` are the only ways the codecs
 * advance it.
 */
module Input {
  import opened Text

  /**
   * What one `read_line` from `pos` delivers: the text up to the next line
   * feed, where the cursor stops, and whether a line feed ended the text (it
   * did not when the input ran out first).
   */
  datatype LineRead = LineRead(text: string, end: nat, terminated: bool) {
    /** The characters `read_line` appends to its buffer: the text, then its line feed if there was one. */
    function Raw(): string {
      if terminated then text + "\n" else text
    }
  }

  function NextLine(data: string, pos: nat): (r: LineRead)
    requires pos <= |data|
    ensures pos <= r.end <= |data|
    ensures pos < |data| ==> pos < r.end
    ensures !r.terminated ==> r.end == |data|
    decreases |data| - pos
  {
    if pos == |data| then LineRead("", pos, false)
    else if data[pos] == '\n' then LineRead("", pos + 1, true)
    else
      var rest := NextLine(data, pos + 1);
      LineRead([data[pos]] + rest.text, rest.end, rest.terminated)
  }

  /** The text of a line never holds a line feed, and the characters read are exactly those between the cursor and the line's end. */
  lemma {:induction false} NextLineRead(data: string, pos: nat)
    requires pos <= |data|
    ensures '\n' !in NextLine(data, pos).text
    ensures NextLine(data, pos).Raw() == data[pos..NextLine(data, pos).end]
    decreases |data| - pos
  {
    if pos < |data| && data[pos] != '\n' {
      NextLineRead(data, pos + 1);
      var rest := NextLine(data, pos + 1);
      assert data[pos..rest.end] == [data[pos]] + data[pos + 1..rest.end];
    }
  }

  /** A line of text without line feeds and then a line feed, lying at `pos`: `read_line` returns exactly that text. */
  lemma {:induction false} NextLineOf(data: string, pos: nat, text: string)
    requires '\n' !in text && LiesAt(data, pos, text + "\n")
    ensures NextLine(data, pos) == LineRead(text, pos + |text| + 1, true)
    decreases |text|
  {
    assert (text + "\n")[0] == if |text| == 0 then '\n' else text[0];
    assert (text + "\n")[1..] == if |text| == 0 then "" else text[1..] + "\n";
    if |text| > 0 {
      NextLineOf(data, pos + 1, text[1..]);
      assert [text[0]] + text[1..] == text;
    }
  }

  /** Characters other than line feeds from `pos` to `e` are the start of the line read from `pos`. */
  lemma {:induction false} NextLineSkip(data: string, pos: nat, e: nat)
    requires pos <= e <= |data| && forall k :: pos <= k < e ==> data[k] != '\n'
    ensures NextLine(data, pos) == LineRead(data[pos..e] + NextLine(data, e).text, NextLine(data, e).end, NextLine(data, e).terminated)
    decreases e - pos
  {
    if pos < e {
      NextLineSkip(data, pos + 1, e);
      assert data[pos..e] == [data[pos]] + data[pos + 1..e];
    }
  }

  /** Text without a line feed up to the end of the input: `read_line` takes all of it and finds no line feed. */
  lemma {:induction false} NextLineAtEof(data: string, pos: nat)
    requires pos <= |data| && '\n' !in data[pos..]
    ensures NextLine(data, pos) == LineRead(data[pos..], |data|, false)
    decreases |data| - pos
  {
    if pos < |data| {
      assert data[pos] == data[pos..][0];
      assert data[pos + 1..] == data[pos..][1..];
      NextLineAtEof(data, pos + 1);
      assert data[pos..] == [data[pos]] + data[pos + 1..];
    }
  }

  /** `s` lies in the input from `pos` on, character by character. */
  ghost predicate LiesAt(data: string, pos: nat, s: string)
    decreases |s|
  {
    if |s| == 0 then pos <= |data|
    else pos < |data| && data[pos] == s[0] && LiesAt(data, pos + 1, s[1..])
  }

  /** Lying at `pos` is being the slice that starts there. */
  lemma {:induction false} LiesAtSlice(data: string, pos: nat, s: string)
    ensures LiesAt(data, pos, s) <==> pos + |s| <= |data| && data[pos..pos + |s|] == s
    decreases |s|
  {
    if |s| > 0 {
      LiesAtSlice(data, pos + 1, s[1..]);
      if pos + |s| <= |data| && data[pos..pos + |s|] == s {
        assert data[pos] == data[pos..pos + |s|][0];
        assert data[pos + 1..pos + |s|] == data[pos..pos + |s|][1..];
      }
      if LiesAt(data, pos, s) {
        assert data[pos..pos + |s|] == [data[pos]] + data[pos + 1..pos + |s|];
        assert s == [s[0]] + s[1..];
      }
    }
  }

  /** Whatever precedes and follows it, a piece of the input lies where it starts. */
  lemma LiesAtMiddle(pre: string, mid: string, rest: string)
    ensures LiesAt(pre + mid + rest, |pre|, mid)
  {
    assert (pre + mid + rest)[|pre|..|pre| + |mid|] == mid;
    LiesAtSlice(pre + mid + rest, |pre|, mid);
  }

  /** Two pieces lying one after the other. */
  lemma LiesAtHalves(data: string, pos: nat, whole: string, first: string, others: string)
    requires whole == first + others && LiesAt(data, pos, whole)
    ensures LiesAt(data, pos, first) && LiesAt(data, pos + |first|, others)
    ensures |whole| == |first| + |others|
  {
    LiesAtSlice(data, pos, first + others);
    assert data[pos..pos + |first|] == (first + others)[..|first|];
    assert data[pos + |first|..pos + |first| + |others|] == (first + others)[|first|..];
    LiesAtSlice(data, pos, first);
    LiesAtSlice(data, pos + |first|, others);
  }

  /** The first `k` of several pieces lying one after the other lie where all of them start. */
  lemma LiesAtPrefix(data: string, pos: nat, parts: seq<string>, k: nat)
    requires k <= |parts| && LiesAt(data, pos, Concat(parts))
    ensures LiesAt(data, pos, Concat(parts[..k]))
  {
    ConcatSplit(parts, k);
    LiesAtHalves(data, pos, Concat(parts), Concat(parts[..k]), Concat(parts[k..]));
  }

  /** The `i`-th of several pieces lying one after the other lies right after those before it. */
  lemma LiesAtPart(data: string, pos: nat, parts: seq<string>, i: nat)
    requires i < |parts| && LiesAt(data, pos, Concat(parts))
    ensures LiesAt(data, pos + |Concat(parts[..i])|, parts[i])
    ensures |Concat(parts[..i + 1])| == |Concat(parts[..i])| + |parts[i]|
  {
    LiesAtPrefix(data, pos, parts, i + 1);
    ConcatSnoc(parts, i);
    LiesAtHalves(data, pos, Concat(parts[..i + 1]), Concat(parts[..i]), parts[i]);
  }

  /** The scan `read_line` makes: past the next line feed, or to the end of the input. */
  method ScanLine(data: string, pos: nat) returns (e: nat)
    requires pos <= |data|
    ensures e == NextLine(data, pos).end && data[pos..e] == NextLine(data, pos).Raw()
  {
    e := pos;
    while e < |data| && data[e] != '\n'
      invariant pos <= e <= |data| && forall k :: pos <= k < e ==> data[k] != '\n'
      decreases |data| - e
    {
      e := e + 1;
    }
    NextLineSkip(data, pos, e);
    NextLineRead(data, pos);
    ghost var end := NextLine(data, e).end;
    if e < |data| {
      assert end == e + 1;
      e := e + 1;
    } else {
      assert end == e;
    }
  }

  // ---------------------------------------------------------------------------
  // read_exact: a count of bytes over a text of characters

  /**
   * Where `read_exact` of some bytes from a character boundary stops: on a
   * character boundary (`Whole`), inside the character before `end`
   * (`MidCharacter`), or short of the bytes asked for (`Short`).
   */
  datatype ByteRead = Whole(end: nat) | MidCharacter(end: nat) | Short

  /** `Read::read_exact` of `n` bytes from character `pos` on, in UTF-8. */
  function TakeBytes(data: string, pos: nat, n: nat): (r: ByteRead)
    requires pos <= |data|
    ensures r.Whole? || r.MidCharacter? ==> pos <= r.end <= |data|
    ensures r.MidCharacter? ==> pos < r.end
    decreases |data| - pos
  {
    if n == 0 then Whole(pos)
    else if pos == |data| then Short
    else if n < Utf8Len(data[pos]) then MidCharacter(pos + 1)
    else TakeBytes(data, pos + 1, n - Utf8Len(data[pos]))
  }

  /**
   * A whole read holds exactly `n` bytes; a read that ends inside a character
   * holds fewer than `n` bytes before that character and more with it; a short
   * read means the input holds fewer than `n` bytes.
   */
  lemma {:induction false} TakeBytesLength(data: string, pos: nat, n: nat)
    requires pos <= |data|
    ensures var r := TakeBytes(data, pos, n);
      && (r.Whole? ==> ByteLen(data[pos..r.end]) == n)
      && (r.MidCharacter? ==> ByteLen(data[pos..r.end - 1]) < n < ByteLen(data[pos..r.end]))
      && (r.Short? ==> ByteLen(data[pos..]) < n)
  {
    match TakeBytes(data, pos, n)
    case Whole(_) => TakeBytesWhole(data, pos, n);
    case MidCharacter(_) => TakeBytesMid(data, pos, n);
    case Short => TakeBytesShort(data, pos, n);
  }

  lemma {:induction false} TakeBytesWhole(data: string, pos: nat, n: nat)
    requires pos <= |data| && TakeBytes(data, pos, n).Whole?
    ensures ByteLen(data[pos..TakeBytes(data, pos, n).end]) == n
    decreases |data| - pos
  {
    if n == 0 {
      assert data[pos..pos] == [];
    } else {
      var e := TakeBytes(data, pos, n).end;
      TakeBytesWhole(data, pos + 1, n - Utf8Len(data[pos]));
      ByteLenSlice(data, pos, e);
    }
  }

  lemma {:induction false} TakeBytesMid(data: string, pos: nat, n: nat)
    requires pos <= |data| && TakeBytes(data, pos, n).MidCharacter?
    ensures var e := TakeBytes(data, pos, n).end;
      ByteLen(data[pos..e - 1]) < n < ByteLen(data[pos..e])
    decreases |data| - pos
  {
    var e := TakeBytes(data, pos, n).end;
    if n < Utf8Len(data[pos]) {
      ByteLenSlice(data, pos, pos + 1);
      assert data[pos..pos] == [];
    } else {
      TakeBytesMid(data, pos + 1, n - Utf8Len(data[pos]));
      ByteLenSlice(data, pos, e);
      ByteLenSlice(data, pos, e - 1);
    }
  }

  lemma {:induction false} TakeBytesShort(data: string, pos: nat, n: nat)
    requires pos <= |data| && TakeBytes(data, pos, n).Short?
    ensures ByteLen(data[pos..]) < n
    decreases |data| - pos
  {
    if pos == |data| {
      assert data[pos..] == [];
    } else {
      TakeBytesShort(data, pos + 1, n - Utf8Len(data[pos]));
      ByteLenSlice(data, pos, |data|);
    }
  }

  /** On ASCII text, `n` bytes are `n` characters. */
  lemma {:induction false} TakeBytesAscii(data: string, pos: nat, n: nat)
    requires pos + n <= |data| && IsAscii(data[pos..pos + n])
    ensures TakeBytes(data, pos, n) == Whole(pos + n)
    decreases n
  {
    if n > 0 {
      assert data[pos..pos + n][0] == data[pos];
      assert data[pos + 1..pos + n] == data[pos..pos + n][1..];
      TakeBytesAscii(data, pos + 1, n - 1);
    }
  }

  /** The scan `read_exact` makes, one character at a time, when the input holds the bytes. */
  method ScanBytes(data: string, pos: nat, n: nat) returns (r: ByteRead)
    requires pos <= |data| && !TakeBytes(data, pos, n).Short?
    ensures r == TakeBytes(data, pos, n)
  {
    var e: nat, left: nat := pos, n;
    while left > 0 && Utf8Len(data[e]) <= left
      invariant pos <= e <= |data|
      invariant TakeBytes(data, e, left) == TakeBytes(data, pos, n)
      decreases left
    {
      left := left - Utf8Len(data[e]);
      e := e + 1;
    }
    if left == 0 {
      r := Whole(e);
    } else {
      r := MidCharacter(e + 1);
    }
  }

  class Reader {
    /** Everything the stream will ever deliver. */
    const data: string
    /** How much of it has been consumed. */
    var pos: nat

    predicate Valid()
      reads this
    {
      pos <= |data|
    }

    constructor (data: string)
      ensures Valid() && this.data == data && pos == 0
    {
      this.data := data;
      pos := 0;
    }

    /** `BufRead::read_line`: everything up to and including the next line feed, or to the end. */
    method ReadLine() returns (line: string)
      requires Valid()
      modifies this
      ensures Valid() && pos == NextLine(data, old(pos)).end && line == NextLine(data, old(pos)).Raw()
    {
      var e := ScanLine(data, pos);
      line := data[pos..e];
      pos := e;
    }

    /**
     * `Read::read_exact` of `n` bytes, which the input holds: the characters
     * read, and whether the bytes stopped inside a character, whose bytes are
     * then all consumed.
     */
    method ReadExact(n: nat) returns (buf: string, r: ByteRead)
      requires Valid() && !TakeBytes(data, pos, n).Short?
      modifies this
      ensures r == TakeBytes(data, old(pos), n)
      ensures Valid() && pos == r.end && buf == data[old(pos)..pos]
    {
      r := ScanBytes(data, pos, n);
      buf := data[pos..r.end];
      pos := r.end;
    }
  }
}
