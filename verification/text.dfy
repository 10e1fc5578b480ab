/** The JavaScript string operations the screens rely on: `trim`,
    `toLowerCase`, `includes`, `parseInt` and `String(n)`, plus the text
    ordering the store uses for `order('name', ...)`. */
module Text {
  import opened Wrappers

  // ---------------------------------------------------------------------
  // Whitespace and trim
  // ---------------------------------------------------------------------

  /** The ECMAScript WhiteSpace and LineTerminator code points: the set that
      `String.prototype.trim` strips and `parseInt` skips. */
  predicate IsJsSpace(c: char) {
    || c == '\t' || c == '\n' || c == '\U{000B}' || c == '\U{000C}' || c == '\r'
    || c == ' ' || c == '\U{00A0}' || c == '\U{1680}'
    || ('\U{2000}' <= c <= '\U{200A}')
    || c == '\U{2028}' || c == '\U{2029}' || c == '\U{202F}' || c == '\U{205F}'
    || c == '\U{3000}' || c == '\U{FEFF}'
  }

  ghost predicate AllSpace(s: string) {
    forall i :: 0 <= i < |s| ==> IsJsSpace(s[i])
  }

  /** The number of whitespace characters `s` starts with. */
  function LeadingSpaces(s: string): (n: nat)
    ensures n <= |s|
    ensures forall i :: 0 <= i < n ==> IsJsSpace(s[i])
    ensures n == |s| || !IsJsSpace(s[n])
  {
    if s != [] && IsJsSpace(s[0]) then 1 + LeadingSpaces(s[1..]) else 0
  }

  /** The number of whitespace characters `s` ends with. */
  function TrailingSpaces(s: string): (n: nat)
    ensures n <= |s|
    ensures forall i :: |s| - n <= i < |s| ==> IsJsSpace(s[i])
    ensures n == |s| || !IsJsSpace(s[|s| - n - 1])
  {
    if s != [] && IsJsSpace(s[|s| - 1]) then 1 + TrailingSpaces(s[..|s| - 1]) else 0
  }

  /** Drops leading whitespace. */
  function TrimStart(s: string): (r: string)
    ensures |r| <= |s|
    ensures r == [] || !IsJsSpace(r[0])
  {
    s[LeadingSpaces(s)..]
  }

  /** Drops trailing whitespace. */
  function TrimEnd(s: string): (r: string)
    ensures |r| <= |s|
    ensures r == [] || !IsJsSpace(r[|r| - 1])
  {
    s[..|s| - TrailingSpaces(s)]
  }

  /** `s.trim()`: whitespace removed from both ends. */
  function Trim(s: string): (r: string)
    ensures |r| <= |s|
    ensures r == [] || (!IsJsSpace(r[0]) && !IsJsSpace(r[|r| - 1]))
  {
    TrimEnd(TrimStart(s))
  }

  /** `!s.trim()`: nothing is left once whitespace is trimmed. */
  predicate TrimsToEmpty(s: string) {
    Trim(s) == ""
  }

  /** What `trim` removes is whitespace, and what it keeps is an infix. */
  lemma TrimIsInfix(s: string)
    ensures var r := Trim(s);
            exists i :: 0 <= i <= |s| - |r| && r == s[i..i + |r|]
                        && AllSpace(s[..i]) && AllSpace(s[i + |r|..])
  {
    var i := LeadingSpaces(s);
    var t := s[i..];
    var j := TrailingSpaces(t);
    var r := t[..|t| - j];
    assert r == Trim(s);
    assert r == s[i..i + |r|];
    forall k | 0 <= k < i ensures IsJsSpace(s[..i][k]) {
    }
    var tail := s[i + |r|..];
    forall k | 0 <= k < |tail| ensures IsJsSpace(tail[k]) {
      assert tail[k] == t[|t| - j + k];
    }
  }

  /** `s.trim()` is empty exactly when `s` is all whitespace (or empty). */
  lemma TrimEmptyIff(s: string)
    ensures TrimsToEmpty(s) <==> AllSpace(s)
  {
    var i := LeadingSpaces(s);
    if i < |s| {
      assert !IsJsSpace(s[i]);
      var t := s[i..];
      assert t[0] == s[i];
      assert TrailingSpaces(t) < |t|;
    }
  }

  // ---------------------------------------------------------------------
  // Lower case and substring search
  // ---------------------------------------------------------------------

  /** Lower case of one character; only the ASCII letters A-Z change. */
  function LowerChar(c: char): char {
    if 'A' <= c <= 'Z' then (c as int + 32) as char else c
  }

  /** `s.toLowerCase()`, restricted to ASCII letters. */
  function Lower(s: string): (r: string)
    ensures |r| == |s|
    ensures forall i :: 0 <= i < |s| ==> r[i] == LowerChar(s[i])
  {
    if s == [] then [] else [LowerChar(s[0])] + Lower(s[1..])
  }

  /** `t` occurs in `s` starting at position `i`. */
  ghost predicate OccursAt(s: string, t: string, i: int) {
    0 <= i && i + |t| <= |s| && s[i..i + |t|] == t
  }

  predicate StartsWith(s: string, t: string) {
    |t| <= |s| && s[..|t|] == t
  }

  /** `s.includes(t)`. */
  predicate Includes(s: string, t: string) {
    StartsWith(s, t) || (s != [] && Includes(s[1..], t))
  }

  /** `includes` finds `t` exactly when `t` occurs somewhere in `s`. */
  lemma {:induction false} IncludesIff(s: string, t: string)
    ensures Includes(s, t) <==> exists i :: OccursAt(s, t, i)
  {
    if StartsWith(s, t) {
      assert OccursAt(s, t, 0);
    } else if s == [] {
      assert forall i :: !OccursAt(s, t, i);
    } else {
      IncludesIff(s[1..], t);
      if Includes(s[1..], t) {
        var i :| OccursAt(s[1..], t, i);
        assert s[1..][i..i + |t|] == s[i + 1..i + 1 + |t|];
        assert OccursAt(s, t, i + 1);
      } else {
        forall i | OccursAt(s, t, i) ensures false {
          assert i != 0;
          assert s[1..][i - 1..i - 1 + |t|] == s[i..i + |t|];
          assert OccursAt(s[1..], t, i - 1);
        }
      }
    }
  }

  /** Every string includes the empty string. */
  lemma IncludesEmpty(s: string)
    ensures Includes(s, "")
  {
    assert StartsWith(s, "");
  }

  /** Substring containment is transitive. */
  lemma IncludesTransitive(a: string, b: string, c: string)
    requires Includes(a, b) && Includes(b, c)
    ensures Includes(a, c)
  {
    IncludesIff(a, b);
    IncludesIff(b, c);
    var i :| OccursAt(a, b, i);
    var j :| OccursAt(b, c, j);
    forall k | 0 <= k < |c| ensures a[i + j + k] == c[k] {
      assert a[i..i + |b|][j + k] == b[j + k];
      assert b[j..j + |c|][k] == c[k];
    }
    assert a[i + j..i + j + |c|] == c;
    assert OccursAt(a, c, i + j);
    IncludesIff(a, c);
  }

  /** Lower-casing both sides keeps an occurrence. */
  lemma LowerKeepsIncludes(s: string, t: string)
    requires Includes(s, t)
    ensures Includes(Lower(s), Lower(t))
  {
    IncludesIff(s, t);
    var i :| OccursAt(s, t, i);
    assert Lower(s)[i..i + |t|] == Lower(t);
    IncludesIff(Lower(s), Lower(t));
  }

  // ---------------------------------------------------------------------
  // Decimal integers: parseInt and String(n)
  // ---------------------------------------------------------------------

  predicate IsDigit(c: char) {
    '0' <= c <= '9'
  }

  ghost predicate AllDigits(s: string) {
    forall i :: 0 <= i < |s| ==> IsDigit(s[i])
  }

  /** The longest prefix of `s` made of decimal digits. */
  function LeadingDigits(s: string): (r: string)
    ensures |r| <= |s| && r == s[..|r|]
    ensures AllDigits(r)
    ensures |r| == |s| || !IsDigit(s[|r|])
  {
    if s != [] && IsDigit(s[0]) then [s[0]] + LeadingDigits(s[1..]) else []
  }

  function DigitValue(c: char): nat
    requires IsDigit(c)
  {
    c as int - '0' as int
  }

  function DigitChar(d: nat): char
    requires d < 10
  {
    ('0' as int + d) as char
  }

  /** The value of a string of decimal digits, most significant first. */
  function DigitsValue(ds: string): nat
    requires AllDigits(ds)
  {
    if ds == [] then 0 else DigitsValue(ds[..|ds| - 1]) * 10 + DigitValue(ds[|ds| - 1])
  }

  /** `parseInt(s)` for decimal input: skip leading whitespace, read an
      optional sign, then the longest run of digits; `None` is `NaN`. */
  function ParseInt(s: string): (r: Option<int>)
    ensures r.None? <==> LeadingDigits(SkipSign(TrimStart(s))) == []
  {
    var t := TrimStart(s);
    var ds := LeadingDigits(SkipSign(t));
    if ds == [] then None
    else
      var v: int := DigitsValue(ds);
      if t[0] == '-' then Some(-v) else Some(v)
  }

  /** Drops one leading `+` or `-`. */
  function SkipSign(t: string): string {
    if t != [] && (t[0] == '-' || t[0] == '+') then t[1..] else t
  }

  /** The decimal rendering of a natural number, without leading zeros. */
  function ShowNat(n: nat): (r: string)
    ensures r != [] && AllDigits(r)
    ensures r[0] != '0' || n == 0
  {
    if n < 10 then [DigitChar(n)] else ShowNat(n / 10) + [DigitChar(n % 10)]
  }

  /** `String(n)` for an integer `n`. */
  function ShowInt(n: int): string {
    if n < 0 then "-" + ShowNat(-n) else ShowNat(n)
  }

  lemma {:induction false} DigitsValueOfShowNat(n: nat)
    ensures DigitsValue(ShowNat(n)) == n
  {
    if n >= 10 {
      var s := ShowNat(n);
      assert s[..|s| - 1] == ShowNat(n / 10);
      DigitsValueOfShowNat(n / 10);
    }
  }

  /** `parseInt(String(n)) == n` for every integer `n`. */
  lemma ParseShowInt(n: int)
    ensures ParseInt(ShowInt(n)) == Some(n)
  {
    var s := ShowInt(n);
    var m: nat := if n < 0 then -n else n;
    assert TrimStart(s) == s;
    assert SkipSign(s) == ShowNat(m);
    assert LeadingDigits(ShowNat(m)) == ShowNat(m);
    DigitsValueOfShowNat(m);
  }

  /** Leading whitespace in front of a non-space start is what `TrimStart`
      drops. */
  lemma {:induction false} TrimStartOfSpaces(ws: string, u: string)
    requires AllSpace(ws)
    requires u == [] || !IsJsSpace(u[0])
    ensures TrimStart(ws + u) == u
  {
    if ws != [] {
      assert (ws + u)[1..] == ws[1..] + u;
      TrimStartOfSpaces(ws[1..], u);
    }
  }

  /** A run of digits followed by a non-digit is what `LeadingDigits`
      reads. */
  lemma {:induction false} LeadingDigitsOfRun(ds: string, rest: string)
    requires AllDigits(ds)
    requires rest == [] || !IsDigit(rest[0])
    ensures LeadingDigits(ds + rest) == ds
  {
    if ds != [] {
      assert (ds + rest)[1..] == ds[1..] + rest;
      LeadingDigitsOfRun(ds[1..], rest);
    }
  }

  /** `parseInt` on any input that reads as digits: whitespace, an optional
      sign, a run of digits (leading zeros allowed) and any text that does
      not start with a digit, such as ".5". The value is the digits' value,
      negated after a minus sign, and the trailing text is ignored. */
  lemma ParseIntValue(ws: string, sign: string, ds: string, rest: string)
    requires AllSpace(ws)
    requires sign == "" || sign == "+" || sign == "-"
    requires ds != [] && AllDigits(ds)
    requires rest == [] || !IsDigit(rest[0])
    ensures ParseInt(ws + sign + ds + rest) == Some(if sign == "-" then -(DigitsValue(ds) as int) else DigitsValue(ds))
  {
    var u := sign + ds + rest;
    assert ws + sign + ds + rest == ws + u;
    SignedRunStart(sign, ds, rest);
    TrimStartOfSpaces(ws, u);
    LeadingDigitsOfRun(ds, rest);
    ParseIntOfSignedRun(ws + u, u, ds);
  }

  /** Once the whitespace is gone, `ParseInt` reads the sign and the digits. */
  lemma ParseIntOfSignedRun(s: string, u: string, ds: string)
    requires TrimStart(s) == u && u != []
    requires LeadingDigits(SkipSign(u)) == ds && ds != []
    ensures ParseInt(s) == Some(if u[0] == '-' then -(DigitsValue(ds) as int) else DigitsValue(ds))
  {
  }

  /** The sign and the run of digits as `ParseInt` sees them after the
      whitespace. */
  lemma SignedRunStart(sign: string, ds: string, rest: string)
    requires sign == "" || sign == "+" || sign == "-"
    requires ds != [] && AllDigits(ds)
    ensures var u := sign + ds + rest;
            && u != [] && !IsJsSpace(u[0])
            && SkipSign(u) == ds + rest
            && (u[0] == '-' <==> sign == "-")
  {
    var u := sign + ds + rest;
    if sign == "" {
      assert u == ds + rest;
      assert u[0] == ds[0];
    } else {
      assert u[0] == sign[0];
      assert u[1..] == ds + rest;
    }
  }

  /** Two inputs a number field can hold: a leading zero is read past and a
      fraction is cut off. */
  lemma ParseIntExamples()
    ensures ParseInt("07") == Some(7)
    ensures ParseInt("12.5") == Some(12)
  {
    assert AllDigits("07") && AllDigits("12");
    assert DigitsValue("07"[..1]) == 0;
    assert DigitsValue("12"[..1]) == 1;
    ParseIntValue("", "", "07", "");
    assert "" + "" + "07" + "" == "07";
    ParseIntValue("", "", "12", ".5");
    assert "" + "" + "12" + ".5" == "12.5";
  }

  // ---------------------------------------------------------------------
  // Text ordering
  // ---------------------------------------------------------------------

  /** Lexicographic order on code points: `a` sorts no later than `b`. */
  predicate TextLe(a: string, b: string) {
    a == [] || (b != [] && (a[0] < b[0] || (a[0] == b[0] && TextLe(a[1..], b[1..]))))
  }

  lemma {:induction false} TextLeTotal(a: string, b: string)
    ensures TextLe(a, b) || TextLe(b, a)
  {
    if a != [] && b != [] && a[0] == b[0] {
      TextLeTotal(a[1..], b[1..]);
    }
  }

  lemma {:induction false} TextLeTransitive(a: string, b: string, c: string)
    requires TextLe(a, b) && TextLe(b, c)
    ensures TextLe(a, c)
  {
    if a != [] && b != [] && c != [] && a[0] == b[0] && b[0] == c[0] {
      TextLeTransitive(a[1..], b[1..], c[1..]);
    }
  }
}
