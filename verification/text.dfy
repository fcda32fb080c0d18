/** Decimal rendering and parsing, substring search, and the literal
    extraction that `generate_complete_fix` performs with the regular
    expression `\*ptr\.add\((\d+)\)`. */
module Text {
  import opened Wrappers

  predicate IsDigit(c: char) {
    '0' <= c <= '9'
  }

  predicate AllDigits(s: string) {
    forall i :: 0 <= i < |s| ==> IsDigit(s[i])
  }

  function DigitChar(d: nat): (c: char)
    requires d < 10
    ensures IsDigit(c)
  {
    (('0' as int) + d) as char
  }

  function DigitValue(c: char): (d: nat)
    requires IsDigit(c)
    ensures d < 10
  {
    (c as int) - ('0' as int)
  }

  /** `format!("{}", n)` for an unsigned integer: canonical decimal digits. */
  function NatToString(n: nat): (s: string)
    ensures |s| > 0 && AllDigits(s)
    ensures |s| > 1 ==> s[0] != '0'
    decreases n
  {
    if n < 10 then [DigitChar(n)] else NatToString(n / 10) + [DigitChar(n % 10)]
  }

  /** The value of a string of decimal digits (`str::parse::<usize>` without its overflow check). */
  function ParseDigits(s: string): nat
    requires AllDigits(s)
    decreases |s|
  {
    if s == [] then 0 else ParseDigits(s[..|s| - 1]) * 10 + DigitValue(s[|s| - 1])
  }

  /** Parsing a rendered number gives the number back. */
  lemma {:induction false} ParseNatToString(n: nat)
    ensures ParseDigits(NatToString(n)) == n
    decreases n
  {
    var s := NatToString(n);
    if n >= 10 {
      ParseNatToString(n / 10);
      assert s[..|s| - 1] == NatToString(n / 10);
    }
  }

  /** Distinct numbers render to distinct strings. */
  lemma NatToStringInjective(a: nat, b: nat)
    ensures NatToString(a) == NatToString(b) ==> a == b
  {
    ParseNatToString(a);
    ParseNatToString(b);
  }

  predicate StartsWith(s: string, p: string) {
    |p| <= |s| && s[..|p|] == p
  }

  /** `str::contains`: `p` occurs somewhere in `s`. */
  predicate Contains(s: string, p: string)
    decreases |s|
  {
    StartsWith(s, p) || (|s| > 0 && Contains(s[1..], p))
  }

  /** Length of the longest prefix of `s` made of decimal digits. */
  function DigitRun(s: string): (k: nat)
    ensures k <= |s|
    ensures AllDigits(s[..k])
    ensures k < |s| ==> !IsDigit(s[k])
    decreases |s|
  {
    if |s| > 0 && IsDigit(s[0]) then
      var k := 1 + DigitRun(s[1..]);
      assert s[..k] == [s[0]] + s[1..][..k - 1];
      k
    else 0
  }

  const AddCallOpen: string := "*ptr.add("

  /** The captured digits of a `\*ptr\.add\((\d+)\)` match starting exactly at
      the front of `s`, as a number; `None` when no match starts there. */
  function AddLiteralAt(s: string): Option<nat> {
    if StartsWith(s, AddCallOpen) then
      var rest := s[|AddCallOpen|..];
      var k := DigitRun(rest);
      if k > 0 && k < |rest| && rest[k] == ')' then Some(ParseDigits(rest[..k])) else None
    else None
  }

  /** The leftmost match of `\*ptr\.add\((\d+)\)` in `s` (ASCII digits), as the
      number its capture group denotes. */
  function FirstAddLiteral(s: string): (r: Option<nat>)
    ensures r.Some? ==> Contains(s, AddCallOpen)
    ensures r.None? <==> forall i :: 0 <= i <= |s| ==> AddLiteralAt(s[i..]).None?
    ensures r.Some? ==> exists i :: && 0 <= i <= |s| && r == AddLiteralAt(s[i..])
                                    && forall j :: 0 <= j < i ==> AddLiteralAt(s[j..]).None?
    decreases |s|
  {
    if AddLiteralAt(s).Some? then
      assert s[0..] == s;
      AddLiteralAt(s)
    else if |s| == 0 then
      assert forall i :: 0 <= i <= |s| ==> s[i..] == s;
      None
    else
      var r := FirstAddLiteral(s[1..]);
      assert forall i :: 0 <= i <= |s| - 1 ==> s[1..][i..] == s[i + 1..];
      assert s[0..] == s;
      assert r.Some? ==> exists i :: && 0 <= i <= |s| && r == AddLiteralAt(s[i..])
                                     && forall j :: 0 <= j < i ==> AddLiteralAt(s[j..]).None? by {
        if r.Some? {
          var i :| && 0 <= i <= |s| - 1 && r == AddLiteralAt(s[1..][i..])
                   && forall j :: 0 <= j < i ==> AddLiteralAt(s[1..][j..]).None?;
          assert forall j :: 0 <= j < i + 1 ==> AddLiteralAt(s[j..]).None? by {
            forall j | 0 <= j < i + 1 ensures AddLiteralAt(s[j..]).None? {
              if j > 0 { assert s[j..] == s[1..][j - 1..]; }
            }
          }
          assert r == AddLiteralAt(s[i + 1..]);
        }
      }
      assert r.None? ==> forall i :: 0 <= i <= |s| ==> AddLiteralAt(s[i..]).None? by {
        if r.None? {
          forall i | 0 <= i <= |s| ensures AddLiteralAt(s[i..]).None? {
            if i > 0 { assert s[i..] == s[1..][i - 1..]; }
          }
        }
      }
      r
  }

  /** A rendered literal inside `*ptr.add(...)` is found again by the search. */
  lemma AddLiteralRoundTrip(n: nat, rest: string)
    ensures FirstAddLiteral(AddCallOpen + NatToString(n) + ")" + rest) == Some(n)
  {
    var s := AddCallOpen + NatToString(n) + ")" + rest;
    var digits := NatToString(n);
    var tail := s[|AddCallOpen|..];
    assert tail == digits + (")" + rest);
    DigitRunOfDigits(digits, ")" + rest);
    assert tail[..|digits|] == digits;
    ParseNatToString(n);
  }

  lemma {:induction false} DigitRunOfDigits(d: string, rest: string)
    requires AllDigits(d)
    requires |rest| > 0 && !IsDigit(rest[0])
    ensures DigitRun(d + rest) == |d|
    decreases |d|
  {
    if |d| > 0 {
      assert (d + rest)[1..] == d[1..] + rest;
      DigitRunOfDigits(d[1..], rest);
    } else {
      assert d + rest == rest;
    }
  }

  /** The number at the front of `s` (its maximal leading digit run). */
  function LeadingNumber(s: string): nat {
    ParseDigits(s[..DigitRun(s)])
  }

  /** A rendered number followed by a non-digit reads back as that number. */
  lemma LeadingNumberOf(n: nat, rest: string)
    requires |rest| > 0 && !IsDigit(rest[0])
    ensures LeadingNumber(NatToString(n) + rest) == n
  {
    DigitRunOfDigits(NatToString(n), rest);
    assert (NatToString(n) + rest)[..|NatToString(n)|] == NatToString(n);
    ParseNatToString(n);
  }
}
