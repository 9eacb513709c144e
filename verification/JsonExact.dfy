/** What printed strings look like, and what the readers do with numbers and strings no printer writes. */
module JsonExact {
  import opened Common
  import opened Json

  /** No line break and no tab stands for itself: everything printed fits on one line. */
  predicate OneLine(t: text) { forall i | 0 <= i < |t| :: t[i] != '\n' && t[i] != '\r' && t[i] != '\t' }

  lemma OneLineJoin(a: text, b: text)
    ensures OneLine(a + b) <==> OneLine(a) && OneLine(b)
  {
    if OneLine(a + b) {
      assert forall i | 0 <= i < |a| :: a[i] == (a + b)[i];
      assert forall i | 0 <= i < |b| :: b[i] == (a + b)[|a| + i];
    }
  }

  lemma {:induction false} StringOneLine(v: text, rest: text)
    ensures OneLine(EscTo(v, rest)) <==> OneLine(rest)
    ensures OneLine(StrTo(v, rest)) <==> OneLine(rest)
  {
    hide OneLine;
    OneLineJoin(['\"'], EscTo(v, rest));
    QuoteOneLine();
    if v == [] {
      OneLineJoin(['\"'], rest);
    } else {
      StringOneLine(v[1..], rest);
      OneLineJoin(Escape(v[0]), EscTo(v[1..], rest));
      EscapeOneLine(v[0]);
    }
  }

  lemma QuoteOneLine()
    ensures OneLine(['\"'])
  {
  }

  lemma EscapeOneLine(c: char)
    ensures OneLine(Escape(c))
  {
  }

  // ------------------------------------------------------------------ numbers out of range

  /** strtol at its bounds. */
  function Clamped(n: int): int {
    if n > 9223372036854775807 then 9223372036854775807 else if n < -9223372036854775808 then -9223372036854775808 else n
  }

  lemma ClampedCast(n: int, m: int32)
    requires (Clamped(n) - m) % 4294967296 == 0
    ensures AsInt(AsLong(n)) == m
  {
    var c, k := Clamped(n), (Clamped(n) - m) / 4294967296;
    assert c == m + 4294967296 * k;
    assert c + 0x8000_0000 == 4294967296 * k + (m + 0x8000_0000) && 0 <= m + 0x8000_0000 < 4294967296;
  }

  /** A number outside int comes back as what a cast keeps of it: strtol's result modulo 2^32. */
  lemma NumberExact(n: int, m: int32, rest: text)
    requires rest != [] ==> !IsDigit(rest[0])
    requires (Clamped(n) - m) % 4294967296 == 0
    ensures ReadInt(Signed(n) + rest) == Some((Some(m), rest))
  {
    hide DigitRun, DigitsValue, AsInt, AsLong, Skip, Decimal;
    ClampedCast(n, m);
    if n < 0 {
      LeadingDigits(-n, rest);
      var u := Signed(n) + rest;
      assert u == ['-'] + (Decimal(-n) + rest);
      SkipNothing('-', Decimal(-n) + rest);
      assert u[1..] == Decimal(-n) + rest && u[0] != "null"[0];
    } else {
      LeadingDigits(n, rest);
      assert (Decimal(n) + rest)[0] != "null"[0];
    }
  }

  /** And an unsigned one beyond 64 bits as the largest. */
  lemma UnsignedExact(n: nat, rest: text)
    requires rest != [] ==> !IsDigit(rest[0])
    ensures ReadUnsigned(Decimal(n) + rest)
      == Some((if n > 18446744073709551615 then 18446744073709551615 else n, rest))
  {
    hide DigitRun, DigitsValue, Skip, Decimal;
    LeadingDigits(n, rest);
  }

  // ------------------------------------------------------------------ strings nobody prints

  function Escaped(v: text): text { if v == [] then [] else Escape(v[0]) + Escaped(v[1..]) }

  /** A string without its closing quote is refused, and so is one with an escape the printer does not use. */
  lemma {:induction false} StringRefused(v: text, c: char, rest: text)
    requires c !in ['\\', '\"', 'n', 'r', 't']
    ensures ReadBody(Escaped(v)) == None
    ensures ReadBody(Escaped(v) + (['\\', c] + rest)) == None
  {
    var bad := ['\\', c] + rest;
    if v == [] {
      assert [] + bad == bad;
    } else {
      hide ReadBody, Escape, Unescape;
      StringRefused(v[1..], c, rest);
      EscapedOne(v[0], Escaped(v[1..]));
      EscapedOne(v[0], Escaped(v[1..]) + bad);
      assert Escaped(v) + bad == Escape(v[0]) + (Escaped(v[1..]) + bad);
    }
  }
}
