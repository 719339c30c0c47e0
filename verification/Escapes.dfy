/** String literals: how the lexer reads escapes, and how the assembler text writes them. */
module Escapes {
  import opened Characters

  // ---------------------------------------------------------------------------
  // Reading
  // ---------------------------------------------------------------------------

  predicate HexDigit(c: char) {
    Digit(c) || 'a' <= c <= 'f' || 'A' <= c <= 'F'
  }

  function HexValue(c: char): (v: nat)
    requires HexDigit(c)
    ensures v < 16
  {
    if Digit(c) then (c as int) - ('0' as int)
    else if 'a' <= c <= 'f' then (c as int) - ('a' as int) + 10
    else (c as int) - ('A' as int) + 10
  }

  /** The digits from `i` on, at most `left` of them, after the value `v`: the value and where
      they end. */
  function Decimal(t: string, i: nat, left: nat, v: nat): (r: (nat, nat))
    requires i <= |t|
    ensures i <= r.1 <= |t| && r.1 <= i + left && (left > 0 && i < |t| && Digit(t[i]) ==> r.1 > i)
    decreases left
  {
    if left > 0 && i < |t| && Digit(t[i]) then Decimal(t, i + 1, left - 1, v * 10 + ((t[i] as int) - ('0' as int)))
    else (v, i)
  }

  /** The character an escape stands for and where the escape ends; `i` is after the
      backslash. */
  function EscapeAt(t: string, i: nat): (r: (char, nat))
    requires i < |t|
    ensures i < r.1 <= |t|
  {
    match t[i]
    case 'n' => ('\n', i + 1)
    case 't' => ('\t', i + 1)
    case 'r' => ('\r', i + 1)
    case '\\' => ('\\', i + 1)
    case '"' => ('"', i + 1)
    case '\'' => ('\'', i + 1)
    case 'x' =>
      if i + 2 < |t| && HexDigit(t[i + 1]) && HexDigit(t[i + 2]) then
        ((HexValue(t[i + 1]) * 16 + HexValue(t[i + 2])) as char, i + 3)
      else (t[i], i + 1)
    case c =>
      if Digit(c) then
        var (v, e) := Decimal(t, i, 3, 0);
        ((v % 256) as char, e)
      else (c, i + 1)
  }

  /** What the text between the quotes stands for, from `i` on. */
  function Unescaped(t: string, i: nat): string
    requires i <= |t|
    decreases |t| - i
  {
    if i == |t| then ""
    else if t[i] == '\\' && i + 1 < |t| then
      var (c, e) := EscapeAt(t, i + 1);
      [c] + Unescaped(t, e)
    else [t[i]] + Unescaped(t, i + 1)
  }

  /** The literal is read into a buffer; one place is left for the end mark. */
  method ProcessStringLiteral(text: string) returns (processed: array<char>, length: nat)
    requires |text| >= 2
    ensures processed.Length == |text| - 1 && length < processed.Length
    ensures processed[..length] == Unescaped(text[1..|text| - 1], 0)
  {
    hide EscapeAt, Unescaped;
    ghost var t := text[1..|text| - 1];
    processed := new char[|text| - 1](i => '\0');
    var i, j: nat := 1, 0;
    ghost var read: string := "";
    assert read + Unescaped(t, 0) == Unescaped(t, 0);
    while i < |text| - 1
      invariant 1 <= i <= |text| - 1 && j <= i - 1 && processed[..j] == read
      invariant read + Unescaped(t, i - 1) == Unescaped(t, 0)
    {
      UnescapedStep(t, i - 1);
      var c := text[i];
      if text[i] == '\\' && i + 1 < |text| - 1 {
        c, i := ReadEscape(text, i + 1);
      } else {
        i := i + 1;
      }
      OneMore(read, c, Unescaped(t, i - 1));
      processed[j] := c;
      j := j + 1;
      read := read + [c];
    }
    UnescapedStep(t, |t|);
    processed[j] := '\0';
    length := j;
  }

  lemma {:induction false} OneMore(read: string, c: char, rest: string)
    ensures read + ([c] + rest) == read + [c] + rest
  {}

  lemma {:induction false} UnescapedStep(t: string, i: nat)
    requires i <= |t|
    ensures i == |t| ==> Unescaped(t, i) == ""
    ensures i < |t| && t[i] == '\\' && i + 1 < |t| ==>
              Unescaped(t, i) == [EscapeAt(t, i + 1).0] + Unescaped(t, EscapeAt(t, i + 1).1)
    ensures i < |t| && !(t[i] == '\\' && i + 1 < |t|) ==> Unescaped(t, i) == [t[i]] + Unescaped(t, i + 1)
  {
    hide EscapeAt;
  }

  /** One escape, `i` after its backslash; the last character of the text is the closing quote. */
  method ReadEscape(text: string, i: nat) returns (c: char, next: nat)
    requires 1 <= i < |text| - 1
    ensures var t := text[1..|text| - 1]; c == EscapeAt(t, i - 1).0 && next - 1 == EscapeAt(t, i - 1).1
    ensures i < next <= |text| - 1
  {
    hide HexValue, Decimal;
    ghost var t := text[1..|text| - 1];
    next := i + 1;
    match text[i]
    case 'n' => c := '\n';
    case 't' => c := '\t';
    case 'r' => c := '\r';
    case '\\' => c := '\\';
    case '"' => c := '"';
    case '\'' => c := '\'';
    case 'x' =>
      if i + 2 < |text| - 1 && HexDigit(text[i + 1]) && HexDigit(text[i + 2]) {
        c := (HexValue(text[i + 1]) * 16 + HexValue(text[i + 2])) as char;
        next := i + 3;
      } else {
        c := text[i];
      }
    case d =>
      if Digit(d) {
        var v;
        v, next := ReadDecimal(text, i);
        c := (v % 256) as char;
      } else {
        c := text[i];
      }
  }

  /** Up to three decimal digits. */
  method ReadDecimal(text: string, i: nat) returns (v: nat, next: nat)
    requires 1 <= i < |text| - 1 && Digit(text[i])
    ensures i < next <= |text| - 1 && Decimal(text[1..|text| - 1], i - 1, 3, 0) == (v, next - 1)
  {
    hide Decimal;
    ghost var t := text[1..|text| - 1];
    var k: nat := 0;
    v, next := 0, i;
    while k < 3 && next < |text| - 1 && Digit(text[next])
      invariant k <= 3 && next == i + k <= |text| - 1
      invariant Decimal(t, i - 1, 3, 0) == Decimal(t, next - 1, 3 - k, v)
    {
      DecimalStep(t, next - 1, 3 - k, v);
      v := v * 10 + ((text[next] as int) - ('0' as int));
      next := next + 1;
      k := k + 1;
    }
    DecimalStep(t, next - 1, 3 - k, v);
  }

  lemma {:induction false} DecimalStep(t: string, i: nat, left: nat, v: nat)
    requires i <= |t|
    ensures Decimal(t, i, left, v) ==
            if left > 0 && i < |t| && Digit(t[i]) then
              Decimal(t, i + 1, left - 1, v * 10 + ((t[i] as int) - ('0' as int)))
            else (v, i)
  {}

  // ---------------------------------------------------------------------------
  // Writing
  // ---------------------------------------------------------------------------

  function EscapeOf(c: char): (e: string)
    ensures |e| > 0
  {
    match c
    case '\n' => "\\n"
    case '\t' => "\\t"
    case '\r' => "\\r"
    case '\\' => "\\\\"
    case '"' => "\\\""
    case c => [c]
  }

  function Escaped(s: string): string {
    if |s| == 0 then "" else EscapeOf(s[0]) + Escaped(s[1..])
  }

  method EmitEscaped(raw: string) returns (out: string)
    ensures out == Escaped(raw)
  {
    out := "";
    for i := 0 to |raw|
      invariant Escaped(raw) == out + Escaped(raw[i..])
    {
      assert raw[i..][1..] == raw[i + 1..];
      out := out + EscapeOf(raw[i]);
    }
  }

  // ---------------------------------------------------------------------------
  // Reading what was written
  // ---------------------------------------------------------------------------

  /** Reading from position `|a|` does not depend on what comes before. */
  lemma {:induction false} EscapeShift(a: string, t: string, i: nat)
    requires i < |t|
    ensures EscapeAt(a + t, |a| + i) == (EscapeAt(t, i).0, |a| + EscapeAt(t, i).1)
  {
    hide HexValue, Decimal;
    var s := a + t;
    assert s[|a| + i] == t[i];
    if i + 1 < |t| {
      assert s[|a| + i + 1] == t[i + 1];
    }
    if i + 2 < |t| {
      assert s[|a| + i + 2] == t[i + 2];
    }
    DecimalShift(a, t, i, 3, 0);
  }

  lemma {:induction false} DecimalShift(a: string, t: string, i: nat, left: nat, v: nat)
    requires i <= |t|
    ensures Decimal(a + t, |a| + i, left, v) == (Decimal(t, i, left, v).0, |a| + Decimal(t, i, left, v).1)
    decreases left
  {
    if left > 0 && i < |t| && Digit(t[i]) {
      assert (a + t)[|a| + i] == t[i];
      DecimalShift(a, t, i + 1, left - 1, v * 10 + ((t[i] as int) - ('0' as int)));
    } else if i < |t| {
      assert (a + t)[|a| + i] == t[i];
    }
  }

  lemma {:induction false} UnescapedShift(a: string, t: string, i: nat)
    requires i <= |t|
    ensures Unescaped(a + t, |a| + i) == Unescaped(t, i)
    decreases |t| - i
  {
    hide EscapeAt, Unescaped;
    UnescapedStep(t, i);
    UnescapedStep(a + t, |a| + i);
    if i < |t| {
      assert (a + t)[|a| + i] == t[i];
      if t[i] == '\\' && i + 1 < |t| {
        EscapeShift(a, t, i + 1);
        UnescapedShift(a, t, EscapeAt(t, i + 1).1);
      } else {
        UnescapedShift(a, t, i + 1);
      }
    }
  }

  lemma {:induction false} EscapeOfRead(c: char, rest: string)
    requires |EscapeOf(c)| == 2
    ensures EscapeAt(EscapeOf(c) + rest, 1) == (c, 2)
  {
    hide Decimal, HexValue;
  }

  lemma {:induction false} EscapeRead(c: char, rest: string)
    ensures Unescaped(EscapeOf(c) + rest, 0) == [c] + Unescaped(rest, 0)
  {
    hide Unescaped, EscapeAt;
    var e := EscapeOf(c);
    UnescapedStep(e + rest, 0);
    UnescapedShift(e, rest, 0);
    if |e| == 2 {
      EscapeOfRead(c, rest);
    }
  }

  /** The lexer reads back every string that is written, whatever its characters. */
  lemma {:induction false} ReadsBack(s: string)
    ensures Unescaped(Escaped(s), 0) == s
  {
    hide Unescaped, EscapeOf;
    UnescapedStep("", 0);
    if |s| > 0 {
      EscapeRead(s[0], Escaped(s[1..]));
      ReadsBack(s[1..]);
      assert [s[0]] + s[1..] == s;
    }
  }

  /** The same with the quotes around it. */
  lemma {:induction false} QuotedReadsBack(s: string)
    ensures var text := "\"" + Escaped(s) + "\""; Unescaped(text[1..|text| - 1], 0) == s
  {
    hide Unescaped, Escaped;
    var text := "\"" + Escaped(s) + "\"";
    assert text[1..|text| - 1] == Escaped(s);
    ReadsBack(s);
  }

  /** No quote from `i` on ends the literal: each is the second half of an escape. */
  predicate NoBareQuote(t: string, i: nat)
    requires i <= |t|
    decreases |t| - i
  {
    i == |t| || if t[i] == '\\' then i + 1 < |t| && NoBareQuote(t, i + 2) else t[i] != '"' && NoBareQuote(t, i + 1)
  }

  lemma {:induction false} QuoteShift(a: string, t: string, i: nat)
    requires i <= |t|
    ensures NoBareQuote(a + t, |a| + i) == NoBareQuote(t, i)
    decreases |t| - i
  {
    if i < |t| {
      assert (a + t)[|a| + i] == t[i];
      if t[i] == '\\' {
        if i + 1 < |t| {
          QuoteShift(a, t, i + 2);
        }
      } else {
        QuoteShift(a, t, i + 1);
      }
    }
  }

  /** What is written stays on its line and inside its quotes. */
  lemma {:induction false} WrittenSafely(s: string)
    ensures NoBareQuote(Escaped(s), 0)
    ensures forall k :: 0 <= k < |Escaped(s)| ==>
            Escaped(s)[k] != '\n' && Escaped(s)[k] != '\r' && Escaped(s)[k] != '\t'
  {
    if |s| > 0 {
      var e, rest := EscapeOf(s[0]), Escaped(s[1..]);
      WrittenSafely(s[1..]);
      QuoteShift(e, rest, 0);
      assert forall k :: 0 <= k < |e| ==> e[k] != '\n' && e[k] != '\r' && e[k] != '\t';
    }
  }

  // ---------------------------------------------------------------------------
  // What escapes mean
  // ---------------------------------------------------------------------------

  /** A backslash and a character that is no digit and no `x`: a line end (10), a tab (9) or a
      carriage return (13) for `n`, `t` and `r`, the character itself otherwise. */
  lemma {:induction false} EscapeMeans(c: char, rest: string)
    requires !Digit(c) && c != 'x'
    ensures var meant := if c == 'n' then 10 as char else if c == 't' then 9 as char
                         else if c == 'r' then 13 as char else c;
            Unescaped(['\\', c] + rest, 0) == [meant] + Unescaped(rest, 0)
  {
    hide Unescaped, HexValue, Decimal;
    var t := ['\\', c] + rest;
    UnescapedStep(t, 0);
    UnescapedShift(['\\', c], rest, 0);
  }

  /** The hexadecimal digit of value `v`, in one case or the other. */
  function HexChar(v: nat, upper: bool): char
    requires v < 16
  {
    if upper then "0123456789ABCDEF"[v] else "0123456789abcdef"[v]
  }

  lemma {:induction false} HexCharValue(v: nat, upper: bool)
    requires v < 16
    ensures HexDigit(HexChar(v, upper)) && HexValue(HexChar(v, upper)) == v
  {}

  /** `\xHH` is the character with this code. */
  lemma {:induction false} HexMeans(high: nat, low: nat, upperHigh: bool, upperLow: bool, rest: string)
    requires high < 16 && low < 16
    ensures Unescaped(['\\', 'x', HexChar(high, upperHigh), HexChar(low, upperLow)] + rest, 0)
            == [(16 * high + low) as char] + Unescaped(rest, 0)
  {
    hide Unescaped, HexValue, HexDigit, HexChar, Decimal;
    var a := ['\\', 'x', HexChar(high, upperHigh), HexChar(low, upperLow)];
    HexCharValue(high, upperHigh);
    HexCharValue(low, upperLow);
    UnescapedStep(a + rest, 0);
    UnescapedShift(a, rest, 0);
  }

  /** `\x` without two such digits after it is an `x`. */
  lemma {:induction false} NoHexMeans(rest: string)
    requires !(|rest| >= 2 && HexDigit(rest[0]) && HexDigit(rest[1]))
    ensures Unescaped(['\\', 'x'] + rest, 0) == ['x'] + Unescaped(rest, 0)
  {
    hide Unescaped, HexValue, HexDigit, Decimal;
    var t := ['\\', 'x'] + rest;
    assert |rest| >= 2 ==> t[2] == rest[0] && t[3] == rest[1];
    UnescapedStep(t, 0);
    UnescapedShift(['\\', 'x'], rest, 0);
  }

  function DigitChar(d: nat): char
    requires d < 10
  {
    "0123456789"[d]
  }

  lemma {:induction false} DigitCharValue(d: nat)
    requires d < 10
    ensures Digit(DigitChar(d)) && (DigitChar(d) as int) - ('0' as int) == d
  {}

  /** Up to three decimal digits are the character with that code, modulo 256. */
  lemma {:induction false} DecimalMeans(a: nat, b: nat, c: nat, rest: string)
    requires a < 10 && b < 10 && c < 10
    ensures Unescaped(['\\', DigitChar(a), DigitChar(b), DigitChar(c)] + rest, 0)
            == [((100 * a + 10 * b + c) % 256) as char] + Unescaped(rest, 0)
    ensures !(|rest| > 0 && Digit(rest[0])) ==>
              Unescaped(['\\', DigitChar(b), DigitChar(c)] + rest, 0)
              == [(10 * b + c) as char] + Unescaped(rest, 0)
    ensures !(|rest| > 0 && Digit(rest[0])) ==>
              Unescaped(['\\', DigitChar(c)] + rest, 0) == [c as char] + Unescaped(rest, 0)
  {
    hide Unescaped, DigitChar, EscapeAt;
    var x, y, z := DigitChar(a), DigitChar(b), DigitChar(c);
    DigitCharValue(a);
    DigitCharValue(b);
    DigitCharValue(c);
    DigitsEscape(['\\', x, y, z], rest, 100 * a + 10 * b + c) by {
      ThreeDigits(['\\', x, y, z] + rest, a, b, c);
    }
    if !(|rest| > 0 && Digit(rest[0])) {
      FewDigits(rest, b, c);
      DigitsEscape(['\\', y, z], rest, 10 * b + c);
      DigitsEscape(['\\', z], rest, c);
    }
  }

  lemma {:induction false} DigitsEscape(a: string, rest: string, v: nat)
    requires |a| >= 2 && a[0] == '\\' && Digit(a[1]) && Decimal(a + rest, 1, 3, 0) == (v, |a|)
    ensures Unescaped(a + rest, 0) == [(v % 256) as char] + Unescaped(rest, 0)
  {
    hide Unescaped, Decimal;
    assert (a + rest)[1] == a[1];
    UnescapedStep(a + rest, 0);
    UnescapedShift(a, rest, 0);
  }

  lemma {:induction false} ThreeDigits(t: string, a: nat, b: nat, c: nat)
    requires a < 10 && b < 10 && c < 10 && |t| >= 4
    requires t[1] == DigitChar(a) && t[2] == DigitChar(b) && t[3] == DigitChar(c)
    ensures Decimal(t, 1, 3, 0) == (100 * a + 10 * b + c, 4)
  {
    hide Decimal, DigitChar;
    DigitCharValue(a);
    DigitCharValue(b);
    DigitCharValue(c);
    DecimalStep(t, 1, 3, 0);
    DecimalStep(t, 2, 2, a);
    DecimalStep(t, 3, 1, 10 * a + b);
    DecimalStep(t, 4, 0, 10 * (10 * a + b) + c);
  }

  lemma {:induction false} FewDigits(rest: string, b: nat, c: nat)
    requires b < 10 && c < 10 && !(|rest| > 0 && Digit(rest[0]))
    ensures Decimal(['\\', DigitChar(b), DigitChar(c)] + rest, 1, 3, 0) == (10 * b + c, 3)
    ensures Decimal(['\\', DigitChar(c)] + rest, 1, 3, 0) == (c, 2)
  {
    hide Decimal, DigitChar;
    DigitCharValue(b);
    DigitCharValue(c);
    var t := ['\\', DigitChar(b), DigitChar(c)] + rest;
    assert |rest| > 0 ==> t[3] == rest[0];
    DecimalStep(t, 1, 3, 0);
    DecimalStep(t, 2, 2, b);
    DecimalStep(t, 3, 1, 10 * b + c);
    var u := ['\\', DigitChar(c)] + rest;
    assert |rest| > 0 ==> u[2] == rest[0];
    DecimalStep(u, 1, 3, 0);
    DecimalStep(u, 2, 2, c);
  }

  /** A character that is no backslash, and a backslash at the very end, stand for themselves. */
  lemma {:induction false} OthersMean(c: char, rest: string)
    requires c != '\\' || |rest| == 0
    ensures Unescaped([c] + rest, 0) == [c] + Unescaped(rest, 0)
  {
    hide Unescaped, EscapeAt;
    UnescapedStep([c] + rest, 0);
    UnescapedShift([c], rest, 0);
  }
}
