/**
 The string operations of the JavaScript runtime that the modelled code calls:
 `split`, `join`, `trim`, `parseInt(_, 10)`, number printing and `toLowerCase`.
 */
module JsText {
  import opened Wrappers

  // ----- characters -----

  /** White space and line terminators, as `trim` and `parseInt` see them. */
  predicate IsSpace(c: char) {
    || '\U{0009}' <= c <= '\U{000D}' || c == ' ' || c == '\U{00A0}' || c == '\U{1680}'
    || '\U{2000}' <= c <= '\U{200A}' || c == '\U{2028}' || c == '\U{2029}' || c == '\U{202F}'
    || c == '\U{205F}' || c == '\U{3000}' || c == '\U{FEFF}'
  }

  predicate IsDigit(c: char) {
    '0' <= c <= '9'
  }

  predicate AllDigits(s: string) {
    forall i :: 0 <= i < |s| ==> IsDigit(s[i])
  }

  function DigitValue(c: char): nat
    requires IsDigit(c)
  {
    c as int - '0' as int
  }

  function DigitChar(d: nat): (c: char)
    requires d < 10
    ensures IsDigit(c) && DigitValue(c) == d
  {
    (d + '0' as int) as char
  }

  /** Lower-cases the ASCII letters; every name the code compares against is ASCII. */
  function ToLower(s: string): (r: string)
    ensures |r| == |s|
  {
    if s == "" then ""
    else [if 'A' <= s[0] <= 'Z' then (s[0] as int + 32) as char else s[0]] + ToLower(s[1..])
  }

  // ----- splitting and joining -----

  function Split(s: string, sep: char): (parts: seq<string>)
    ensures |parts| >= 1
  {
    if s == "" then [""]
    else
      var rest := Split(s[1..], sep);
      if s[0] == sep then [""] + rest else [[s[0]] + rest[0]] + rest[1..]
  }

  function Join(parts: seq<string>, sep: string): string {
    if parts == [] then ""
    else if |parts| == 1 then parts[0]
    else parts[0] + sep + Join(parts[1..], sep)
  }

  lemma {:induction false} SplitNoSep(s: string, sep: char)
    requires sep !in s
    ensures Split(s, sep) == [s]
  {
    if s != "" {
      assert sep !in s[1..];
      SplitNoSep(s[1..], sep);
      assert [s[0]] + s[1..] == s;
    }
  }

  lemma {:induction false} SplitAtSep(a: string, b: string, sep: char)
    requires sep !in a
    ensures Split(a + [sep] + b, sep) == [a] + Split(b, sep)
  {
    var s := a + [sep] + b;
    if a == "" {
      assert s[1..] == b;
    } else {
      assert sep !in a[1..];
      assert s[1..] == a[1..] + [sep] + b;
      SplitAtSep(a[1..], b, sep);
      assert [a[0]] + a[1..] == a;
    }
  }

  lemma {:induction false} JoinConcat(a: seq<string>, b: seq<string>, sep: string)
    requires a != [] && b != []
    ensures Join(a + b, sep) == Join(a, sep) + sep + Join(b, sep)
  {
    assert (a + b)[1..] == a[1..] + b;
    if |a| > 1 { JoinConcat(a[1..], b, sep); }
  }

  /** `split` undoes `join` when no part contains the separator. */
  lemma {:induction false} SplitJoin(parts: seq<string>, sep: char)
    requires parts != []
    requires forall i :: 0 <= i < |parts| ==> sep !in parts[i]
    ensures Split(Join(parts, [sep]), sep) == parts
  {
    if |parts| == 1 {
      SplitNoSep(parts[0], sep);
    } else {
      SplitJoin(parts[1..], sep);
      SplitAtSep(parts[0], Join(parts[1..], [sep]), sep);
    }
  }

  /** No part of a split contains the separator. */
  lemma {:induction false} SplitParts(s: string, sep: char)
    ensures forall i :: 0 <= i < |Split(s, sep)| ==> sep !in Split(s, sep)[i]
    ensures |Split(s, sep)| >= 2 <==> sep in s
    ensures Join(Split(s, sep), [sep]) == s
  {
    if s != "" {
      SplitParts(s[1..], sep);
      var rest := Split(s[1..], sep);
      if s[0] == sep {
        assert Split(s, sep) == [""] + rest;
        assert ([""] + rest)[1..] == rest;
        assert "" + [sep] + s[1..] == s;
      } else {
        var first := [s[0]] + rest[0];
        assert Split(s, sep)[1..] == rest[1..];
        if |rest| > 1 {
          assert first + [sep] + Join(rest[1..], [sep]) == [s[0]] + (rest[0] + [sep] + Join(rest[1..], [sep]));
        }
        assert [s[0]] + s[1..] == s;
      }
    }
  }

  // ----- trimming -----

  function TrimStart(s: string): (r: string)
    ensures |r| <= |s|
    ensures r == s[|s| - |r|..]
    ensures r != "" ==> !IsSpace(r[0])
  {
    if s != "" && IsSpace(s[0]) then TrimStart(s[1..]) else s
  }

  function TrimEnd(s: string): (r: string)
    ensures r <= s
    ensures r != "" ==> !IsSpace(r[|r| - 1])
  {
    if s != "" && IsSpace(s[|s| - 1]) then TrimEnd(s[..|s| - 1]) else s
  }

  function Trim(s: string): (r: string)
    ensures r != "" ==> !IsSpace(r[0]) && !IsSpace(r[|r| - 1])
    ensures |r| <= |s|
  {
    TrimEnd(TrimStart(s))
  }

  /** Text that starts and ends with visible characters is its own trim. */
  lemma TrimVisible(s: string)
    requires s != "" ==> !IsSpace(s[0]) && !IsSpace(s[|s| - 1])
    ensures Trim(s) == s
  {
  }

  // ----- numbers -----

  function Digits(n: nat): (s: string)
    ensures s != "" && AllDigits(s)
  {
    if n < 10 then [DigitChar(n)] else Digits(n / 10) + [DigitChar(n % 10)]
  }

  function DigitsValue(s: string): nat
    requires AllDigits(s)
  {
    if s == "" then 0 else 10 * DigitsValue(s[..|s| - 1]) + DigitValue(s[|s| - 1])
  }

  lemma {:induction false} DigitsValueOf(n: nat)
    ensures DigitsValue(Digits(n)) == n
  {
    if n < 10 {
      assert Digits(n)[..0] == "";
    } else {
      DigitsValueOf(n / 10);
      assert Digits(n)[..|Digits(n)| - 1] == Digits(n / 10);
    }
  }

  /** The longest prefix of digits. */
  function LeadingDigits(s: string): (r: string)
    ensures r <= s && AllDigits(r)
  {
    if s != "" && IsDigit(s[0]) then
      var tail := LeadingDigits(s[1..]);
      assert forall i :: 0 <= i < |tail| + 1 ==> ([s[0]] + tail)[i] == if i == 0 then s[0] else tail[i - 1];
      [s[0]] + tail
    else ""
  }

  lemma {:induction false} LeadingDigitsAll(s: string)
    requires AllDigits(s)
    ensures LeadingDigits(s) == s
  {
    if s != "" {
      assert AllDigits(s[1..]);
      LeadingDigitsAll(s[1..]);
    }
  }

  /** `parseInt(s, 10)`; `None` is NaN. */
  function ParseInt(s: string): Option<int> {
    var t := TrimStart(s);
    var negative := t != "" && t[0] == '-';
    var body := if t != "" && (t[0] == '-' || t[0] == '+') then t[1..] else t;
    var digits := LeadingDigits(body);
    if digits == "" then None
    else
      var value: int := DigitsValue(digits);
      Some(if negative then -value else value)
  }

  lemma DigitIsVisible(c: char)
    requires IsDigit(c)
    ensures !IsSpace(c) && c != '-' && c != '+'
  {
  }

  lemma ParseDigitString(s: string)
    requires s != "" && AllDigits(s)
    ensures ParseInt(s) == Some(DigitsValue(s))
  {
    DigitIsVisible(s[0]);
    LeadingDigitsAll(s);
  }

  /** Reading a printed number gives the number back. */
  lemma ParsePrinted(n: nat)
    ensures ParseInt(Digits(n)) == Some(n)
  {
    DigitsValueOf(n);
    ParseDigitString(Digits(n));
  }

  /** Different numbers print differently. */
  lemma DigitsInjective(m: nat, n: nat)
    requires Digits(m) == Digits(n)
    ensures m == n
  {
    DigitsValueOf(m);
    DigitsValueOf(n);
  }

  /** Printed numbers contain digits only, hence no separator or white space. */
  lemma DigitsPlain(n: nat, c: char)
    requires !IsDigit(c)
    ensures c !in Digits(n)
  {
    assert AllDigits(Digits(n));
  }

  // ----- what these functions do to any text -----

  predicate AllSpaces(s: string) {
    forall i :: 0 <= i < |s| ==> IsSpace(s[i])
  }

  /** Trimming takes white space off both ends and nothing else. */
  lemma TrimTakesSpaces(s: string)
    ensures var lead := |s| - |TrimStart(s)|;
      && AllSpaces(s[..lead]) && AllSpaces(s[lead + |Trim(s)|..]) && s == s[..lead] + Trim(s) + s[lead + |Trim(s)|..]
  {
    TrimStartTakes(s);
    TrimEndTakes(TrimStart(s));
    hide TrimStart, TrimEnd, IsSpace;
  }

  lemma {:induction false} TrimStartTakes(s: string)
    ensures AllSpaces(s[..|s| - |TrimStart(s)|])
  {
    if s != "" && IsSpace(s[0]) {
      TrimStartTakes(s[1..]);
      var k := |s| - |TrimStart(s)|;
      assert s[..k] == [s[0]] + s[1..][..k - 1];
    }
  }

  lemma {:induction false} TrimEndTakes(s: string)
    ensures AllSpaces(s[|TrimEnd(s)|..])
  {
    if s != "" && IsSpace(s[|s| - 1]) {
      var front := s[..|s| - 1];
      TrimEndTakes(front);
      assert s[|TrimEnd(s)|..] == front[|TrimEnd(s)|..] + [s[|s| - 1]];
    }
  }

  lemma {:induction false} SpacesBeforeGo(space: string, rest: string)
    requires AllSpaces(space) && (rest == "" || !IsSpace(rest[0]))
    ensures TrimStart(space + rest) == rest
  {
    if space == "" {
      assert space + rest == rest;
    } else {
      assert (space + rest)[1..] == space[1..] + rest;
      SpacesBeforeGo(space[1..], rest);
    }
  }

  lemma {:induction false} LeadingDigitsStop(digits: string, rest: string)
    requires AllDigits(digits) && (rest == "" || !IsDigit(rest[0]))
    ensures LeadingDigits(digits + rest) == digits
  {
    if digits == "" {
      assert digits + rest == rest;
    } else {
      assert (digits + rest)[1..] == digits[1..] + rest;
      LeadingDigitsStop(digits[1..], rest);
      assert digits == [digits[0]] + digits[1..];
    }
  }

  /** `parseInt` skips white space, takes a sign and all digits that follow, and ignores the rest; without a digit it is NaN. */
  lemma ParseIntReads(space: string, sign: string, digits: string, rest: string)
    requires AllSpaces(space) && sign in {"", "+", "-"} && AllDigits(digits) && (rest == "" || !IsDigit(rest[0]))
    requires sign == "" && digits == "" && rest != "" ==> !IsSpace(rest[0]) && rest[0] != '+' && rest[0] != '-'
    ensures ParseInt(space + (sign + (digits + rest))) == Signed(sign, digits)
  {
    var body := digits + rest;
    var t := sign + body;
    FirstVisible(sign, digits, rest);
    SpacesBeforeGo(space, t);
    LeadingDigitsStop(digits, rest);
    hide IsSpace, DigitsValue, TrimStart, LeadingDigits, IsDigit;
    ParseTrimmed(space + t, sign, body, digits);
  }

  /** The number a sign and digits stand for; `None` is NaN. */
  function Signed(sign: string, digits: string): Option<int>
    requires AllDigits(digits)
  {
    var value: int := DigitsValue(digits);
    if digits == "" then None else Some(if sign == "-" then -value else value)
  }

  lemma FirstVisible(sign: string, digits: string, rest: string)
    requires sign in {"", "+", "-"} && AllDigits(digits)
    requires sign == "" && digits == "" && rest != "" ==> !IsSpace(rest[0]) && rest[0] != '+' && rest[0] != '-'
    ensures var t := sign + (digits + rest); t == "" || !IsSpace(t[0])
    ensures var body := digits + rest; sign == "" && body != "" ==> body[0] != '+' && body[0] != '-'
  {
    SignIsVisible(sign);
    if digits != "" { DigitIsVisible(digits[0]); }
    hide IsSpace;
  }

  lemma ParseTrimmed(text: string, sign: string, body: string, digits: string)
    requires TrimStart(text) == sign + body && sign in {"", "+", "-"} && AllDigits(digits) && LeadingDigits(body) == digits
    requires sign == "" && body != "" ==> body[0] != '+' && body[0] != '-'
    ensures ParseInt(text) == Signed(sign, digits)
  {
    hide TrimStart, LeadingDigits, DigitsValue, IsDigit;
    var t := sign + body;
    if sign == "" { assert t == body; } else { assert t[0] == sign[0] && t[1..] == body; }
  }

  lemma SignIsVisible(sign: string)
    requires sign in {"", "+", "-"}
    ensures sign != "" ==> !IsSpace(sign[0])
  {
  }

  /** Blanks, tabs and line ends are white space; what messages and numbers are made of is not. */
  lemma SpacesAre()
    ensures IsSpace(' ') && IsSpace('\t') && IsSpace('\n') && IsSpace('\r')
    ensures forall c :: '!' <= c <= '~' ==> !IsSpace(c)
  {
  }

  /** Lower-casing maps each of the 26 letters to its partner and leaves every other character alone. */
  lemma {:induction false} ToLowerAt(s: string, i: nat)
    requires i < |s|
    ensures forall k :: 0 <= k < 26 && s[i] == "ABCDEFGHIJKLMNOPQRSTUVWXYZ"[k] ==> ToLower(s)[i] == "abcdefghijklmnopqrstuvwxyz"[k]
    ensures !('A' <= s[i] <= 'Z') ==> ToLower(s)[i] == s[i]
  {
    if i > 0 { ToLowerAt(s[1..], i - 1); }
  }

  /** Numbers are printed without leading zeros. */
  lemma {:induction false} DigitsLead(n: nat)
    ensures n > 0 ==> Digits(n)[0] != '0'
    ensures Digits(0) == "0"
  {
    if n >= 10 { DigitsLead(n / 10); }
  }
}
