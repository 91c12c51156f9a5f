/**
 * String helpers that mirror the JavaScript string operations the application
 * uses: `trim`, `toLowerCase`, `includes`, `startsWith`, `parseInt` and the
 * character-class tests of its regular expressions.
 */
module Text {
  import opened Wrappers

  /** The whitespace set of JavaScript's `trim` and of `\s` (ASCII part, no-break space and BOM). */
  predicate IsSpace(c: char) {
    c == ' ' || c == '\t' || c == '\n' || c == '\r' || c == '\U{000B}' || c == '\U{000C}'
    || c == '\U{00A0}' || c == '\U{FEFF}'
  }

  /** `s` with its leading whitespace removed. */
  function TrimStart(s: string): (r: string)
    ensures |r| <= |s|
  {
    if s != [] && IsSpace(s[0]) then TrimStart(s[1..]) else s
  }

  /** `TrimStart` drops exactly the longest all-whitespace prefix. */
  lemma {:induction false} TrimStartSpec(s: string)
    ensures var r := TrimStart(s);
      && r == s[|s| - |r|..]
      && (r == [] || !IsSpace(r[0]))
      && (forall i :: 0 <= i < |s| - |r| ==> IsSpace(s[i]))
  {
    if s != [] && IsSpace(s[0]) {
      TrimStartSpec(s[1..]);
    }
  }

  /** `s` with its trailing whitespace removed. */
  function TrimEnd(s: string): (r: string)
    ensures |r| <= |s|
  {
    if s != [] && IsSpace(s[|s| - 1]) then TrimEnd(s[..|s| - 1]) else s
  }

  /** `TrimEnd` drops exactly the longest all-whitespace suffix. */
  lemma {:induction false} TrimEndSpec(s: string)
    ensures var r := TrimEnd(s);
      && r == s[..|r|]
      && (r == [] || !IsSpace(r[|r| - 1]))
      && (forall i :: |r| <= i < |s| ==> IsSpace(s[i]))
  {
    if s != [] && IsSpace(s[|s| - 1]) {
      TrimEndSpec(s[..|s| - 1]);
    }
  }

  /** A JavaScript string value is truthy: present (not `undefined` or `null`) and not empty. */
  predicate Truthy(s: Option<string>) {
    s.Some? && s.value != ""
  }

  /** JavaScript's `String.prototype.trim`. */
  function Trim(s: string): string {
    TrimEnd(TrimStart(s))
  }

  lemma TrimStartFixed(s: string)
    requires s == [] || !IsSpace(s[0])
    ensures TrimStart(s) == s
  {
  }

  lemma TrimEndFixed(s: string)
    requires s == [] || !IsSpace(s[|s| - 1])
    ensures TrimEnd(s) == s
  {
  }

  /** Trimming twice is trimming once. */
  lemma TrimIdempotent(s: string)
    ensures Trim(Trim(s)) == Trim(s)
  {
    var a := TrimStart(s);
    var b := TrimEnd(a);
    TrimStartSpec(s);
    TrimEndSpec(a);
    if b != [] {
      assert b[0] == a[0];
    }
    TrimStartFixed(b);
    TrimEndFixed(b);
  }

  /** A string whose ends are not whitespace is its own trim. */
  lemma TrimFixed(s: string)
    requires s == [] || (!IsSpace(s[0]) && !IsSpace(s[|s| - 1]))
    ensures Trim(s) == s
  {
    TrimStartFixed(s);
    TrimEndFixed(s);
  }

  /** ASCII upper-case to lower-case; every other character is left alone. */
  function LowerChar(c: char): (r: char)
    ensures IsSpace(r) <==> IsSpace(c)
    ensures 'A' <= c <= 'Z' ==> 'a' <= r <= 'z'
    ensures !('A' <= c <= 'Z') ==> r == c
  {
    if 'A' <= c <= 'Z' then (c as int + 32) as char else c
  }

  /** `toLowerCase`, on the ASCII letters. */
  function Lower(s: string): (r: string)
    ensures |r| == |s|
  {
    if s == [] then [] else [LowerChar(s[0])] + Lower(s[1..])
  }

  /** `Lower` works character by character. */
  lemma {:induction false} LowerAt(s: string)
    ensures forall i :: 0 <= i < |s| ==> Lower(s)[i] == LowerChar(s[i])
  {
    if s != [] {
      LowerAt(s[1..]);
    }
  }

  /** The comparison key the application uses for names: `s.trim().toLowerCase()`. */
  function Normalize(s: string): string {
    Lower(Trim(s))
  }

  /** Normalising a trimmed name gives the same key as normalising the name. */
  lemma NormalizeTrim(s: string)
    ensures Normalize(Trim(s)) == Normalize(s)
  {
    TrimIdempotent(s);
  }

  /** Lower-casing keeps whitespace where it is. */
  lemma LowerKeepsSpace(s: string)
    ensures s == [] <==> Lower(s) == []
    ensures s != [] ==> (IsSpace(s[0]) <==> IsSpace(Lower(s)[0]))
    ensures s != [] ==> (IsSpace(s[|s| - 1]) <==> IsSpace(Lower(s)[|s| - 1]))
  {
    LowerAt(s);
  }

  /** Lower-casing twice is lower-casing once. */
  lemma LowerIdempotent(s: string)
    ensures Lower(Lower(s)) == Lower(s)
  {
    LowerAt(s);
    LowerAt(Lower(s));
    assert forall i :: 0 <= i < |s| ==> LowerChar(LowerChar(s[i])) == LowerChar(s[i]);
  }

  /** A normalised key is its own key. */
  lemma NormalizeIdempotent(s: string)
    ensures Normalize(Normalize(s)) == Normalize(s)
  {
    var t := Trim(s);
    TrimIdempotent(s);
    TrimStartSpec(s);
    TrimEndSpec(TrimStart(s));
    var l := Lower(t);
    if t != [] {
      assert t == TrimEnd(TrimStart(s));
      assert !IsSpace(t[|t| - 1]);
      assert t[0] == TrimStart(s)[0];
    }
    LowerKeepsSpace(t);
    TrimFixed(l);
    LowerIdempotent(t);
  }

  /** `s.startsWith(p)`. */
  predicate StartsWith(s: string, p: string) {
    |p| <= |s| && s[..|p|] == p
  }

  /** `s.includes(sub)`: `sub` occurs in `s` at some offset. */
  predicate Contains(s: string, sub: string) {
    StartsWith(s, sub) || (s != [] && Contains(s[1..], sub))
  }

  /** Every string includes the empty string. */
  lemma ContainsEmpty(s: string)
    ensures Contains(s, "")
  {
  }

  predicate IsUpper(c: char) { 'A' <= c <= 'Z' }
  predicate IsLower(c: char) { 'a' <= c <= 'z' }
  predicate IsDigit(c: char) { '0' <= c <= '9' }

  /** The character class `[!@#$%^&*(),.?":{}|<>]` of the password rule. */
  predicate IsSpecial(c: char) {
    c in "!@#$%^&*(),.?\":{}|<>"
  }

  /** `/[A-Z]/.test(s)`. */
  predicate HasUpper(s: string) { exists i :: 0 <= i < |s| && IsUpper(s[i]) }
  /** `/[a-z]/.test(s)`. */
  predicate HasLower(s: string) { exists i :: 0 <= i < |s| && IsLower(s[i]) }
  /** `/[!@#$%^&*(),.?":{}|<>]/.test(s)`. */
  predicate HasSpecial(s: string) { exists i :: 0 <= i < |s| && IsSpecial(s[i]) }

  /** Value of a string of decimal digits. */
  function DigitsValue(ds: string): (n: nat)
    requires forall i :: 0 <= i < |ds| ==> IsDigit(ds[i])
  {
    if ds == [] then 0
    else
      assert IsDigit(ds[|ds| - 1]);
      DigitsValue(ds[..|ds| - 1]) * 10 + (ds[|ds| - 1] as int - '0' as int)
  }

  /** The longest prefix of `s` made of decimal digits. */
  function DigitPrefix(s: string): (r: string)
    ensures |r| <= |s|
    ensures forall i :: 0 <= i < |r| ==> IsDigit(r[i])
  {
    if s != [] && IsDigit(s[0]) then [s[0]] + DigitPrefix(s[1..]) else []
  }

  /**
   * JavaScript's `parseInt(s)`, called without a radix, read in radix 10:
   * leading whitespace is skipped, an optional sign is read, then the longest
   * run of digits; no digit at all is NaN, here `None`. The hexadecimal reading
   * of a "0x" prefix is not modelled.
   */
  function ParseInt(s: string): Option<int>
  {
    var t := TrimStart(s);
    var negative := t != [] && t[0] == '-';
    var body := if t != [] && (t[0] == '-' || t[0] == '+') then t[1..] else t;
    var ds := DigitPrefix(body);
    if ds == [] then None
    else
      var v: int := DigitsValue(ds);
      Some(if negative then -v else v)
  }

  function Pow10(k: nat): (p: nat)
    ensures p >= 1
  {
    if k == 0 then 1 else 10 * Pow10(k - 1)
  }

  /** The unsigned decimal number at the start of `body`: digits, then an optional '.' and digits. */
  function DecimalPrefix(body: string): Option<real>
  {
    var whole := DigitPrefix(body);
    var rest := body[|whole|..];
    var fraction := if rest != [] && rest[0] == '.' then DigitPrefix(rest[1..]) else [];
    if whole == [] && fraction == [] then None
    else Some(DigitsValue(whole) as real + FractionValue(fraction))
  }

  /** The value of the digits after the point: "25" is 0.25. */
  function FractionValue(fraction: string): (f: real)
    requires forall i :: 0 <= i < |fraction| ==> IsDigit(fraction[i])
  {
    if fraction == [] then 0.0 else DigitsValue(fraction) as real / Pow10(|fraction|) as real
  }

  /**
   * JavaScript's `parseFloat(s)` on decimal notation: leading whitespace is
   * skipped, an optional sign is read, then digits with an optional fraction
   * after a '.'; no digit on either side of the point is NaN (`None`).
   */
  function ParseFloat(s: string): Option<real>
  {
    var t := TrimStart(s);
    var negative := t != [] && t[0] == '-';
    var body := if t != [] && (t[0] == '-' || t[0] == '+') then t[1..] else t;
    var v := DecimalPrefix(body);
    if v.None? then None else Some(if negative then -v.value else v.value)
  }

  lemma DecimalPrefixDigits(s: string)
    requires s != [] && forall i :: 0 <= i < |s| ==> IsDigit(s[i])
    ensures DecimalPrefix(s) == Some(DigitsValue(s) as real)
  {
    DigitPrefixAll(s);
    assert s[|s|..] == [];
  }

  /** On a plain digit string `parseFloat` and `parseInt` agree. */
  lemma ParseFloatDigits(s: string)
    requires s != [] && forall i :: 0 <= i < |s| ==> IsDigit(s[i])
    ensures ParseFloat(s) == Some(DigitsValue(s) as real)
    ensures ParseInt(s) == Some(DigitsValue(s))
  {
    ParseIntDigits(s);
    TrimStartFixed(s);
    assert IsDigit(s[0]);
    DecimalPrefixDigits(s);
  }

  /** `parseFloat` reads the fraction: "12.5" is 12.5. */
  lemma ParseFloatFraction()
    ensures ParseFloat("12.5") == Some(12.5)
  {
    TrimStartFixed("12.5");
    assert DigitPrefix("12.5") == "12";
    assert "12.5"[2..] == ".5";
    assert ".5"[1..] == "5";
    assert DigitPrefix("5") == "5";
    assert FractionValue("5") == 0.5;
    assert DigitsValue("12") == 12 by {
      assert "12"[..1] == "1";
    }
  }

  /** Decimal digits of `n`, left-padded with '0' to at least `width` characters. */
  function PadNat(n: nat, width: nat): (r: string)
    ensures |r| >= width
    ensures forall i :: 0 <= i < |r| ==> IsDigit(r[i])
    ensures DigitsValue(r) == n
    decreases n + width
  {
    if n < 10 && width <= 1 then [('0' as int + n) as char]
    else
      var rest := PadNat(n / 10, if width > 0 then width - 1 else 0);
      var r := rest + [('0' as int + n % 10) as char];
      assert r[..|r| - 1] == rest;
      r
  }

  /** A run of digits consumed whole by `DigitPrefix`. */
  lemma DigitPrefixAll(s: string)
    requires forall i :: 0 <= i < |s| ==> IsDigit(s[i])
    ensures DigitPrefix(s) == s
  {
  }

  /** `parseInt` reads a plain digit string back as its value. */
  lemma ParseIntDigits(s: string)
    requires s != [] && forall i :: 0 <= i < |s| ==> IsDigit(s[i])
    ensures ParseInt(s) == Some(DigitsValue(s))
  {
    assert IsDigit(s[0]);
    TrimStartFixed(s);
    assert s[0] != '-' && s[0] != '+';
    DigitPrefixAll(s);
    assert DigitPrefix(s) == s;
  }

  /** `parseInt` undoes the zero-padded decimal rendering of a natural number. */
  lemma ParseIntPadNat(n: nat, width: nat)
    ensures ParseInt(PadNat(n, width)) == Some(n)
  {
    ParseIntDigits(PadNat(n, width));
  }

  /** A string without digits after its sign is NaN. */
  lemma ParseIntNoDigits(s: string)
    requires s == [] || (!IsDigit(s[0]) && s[0] != '-' && s[0] != '+' && !IsSpace(s[0]))
    ensures ParseInt(s) == None
  {
    TrimStartFixed(s);
  }
}
