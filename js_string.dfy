/**
 * The JavaScript string and number built-ins the worker relies on, stated over
 * `string` (a sequence of characters): `includes`, `startsWith`, `split`,
 * `join`, `trim`, `toLowerCase`, `padStart`, `Number.prototype.toString(radix)`
 * and `parseInt(s, 10)`.
 */
module JsString {

  datatype Option<+T> = None | Some(value: T)

  /** `\d` of a JavaScript regular expression. */
  predicate IsDigit(c: char) { '0' <= c <= '9' }

  /** `\w` of a JavaScript regular expression: ASCII letters, digits and `_`. */
  predicate IsWordChar(c: char) {
    ('a' <= c <= 'z') || ('A' <= c <= 'Z') || IsDigit(c) || c == '_'
  }

  /** ECMAScript WhiteSpace and LineTerminator code points: what `trim` strips and `parseInt` skips. */
  predicate IsJsWhitespace(c: char) {
    c == '\t' || c == '\n' || c == '\U{B}' || c == '\U{C}' || c == '\r' || c == ' '
    || c == '\U{A0}' || c == '\U{1680}' || ('\U{2000}' <= c <= '\U{200A}')
    || c == '\U{2028}' || c == '\U{2029}' || c == '\U{202F}' || c == '\U{205F}'
    || c == '\U{3000}' || c == '\U{FEFF}'
  }

  /** `s.startsWith(p)` */
  predicate StartsWith(s: string, p: string) { p <= s }

  /** `s.includes(t)`: `t` occurs in `s` at some position. */
  predicate Contains(s: string, t: string) {
    exists i | 0 <= i <= |s| :: t <= s[i..]
  }

  /** Text put in front keeps every occurrence. */
  lemma ContainsAfter(p: string, s: string, t: string)
    requires Contains(s, t)
    ensures Contains(p + s, t)
  {
    var i :| 0 <= i <= |s| && t <= s[i..];
    assert (p + s)[|p| + i..] == s[i..];
  }

  // ---------------------------------------------------------------- split / join

  /** The first index of `c` in `s`, or `|s|` when there is none. */
  function IndexOf(s: string, c: char): (i: nat)
    ensures i <= |s|
    ensures i < |s| ==> s[i] == c
    ensures forall k :: 0 <= k < i ==> s[k] != c
  {
    if s == [] then 0
    else if s[0] == c then 0
    else 1 + IndexOf(s[1..], c)
  }

  /** `IndexOf` is the first position holding `c`. */
  lemma IndexOfIs(s: string, c: char, i: nat)
    requires i <= |s| && (i < |s| ==> s[i] == c)
    requires forall k :: 0 <= k < i ==> s[k] != c
    ensures IndexOf(s, c) == i
  {
  }

  /** Text appended after an occurrence of `c` does not move the first one. */
  lemma IndexOfAppend(a: string, t: string, c: char)
    requires IndexOf(a, c) < |a|
    ensures IndexOf(a + t, c) == IndexOf(a, c)
    ensures (a + t)[IndexOf(a, c) + 1..] == a[IndexOf(a, c) + 1..] + t
  {
    var i := IndexOf(a, c);
    assert forall k :: 0 <= k < i ==> (a + t)[k] == a[k];
    assert (a + t)[i] == c;
    IndexOfIs(a + t, c, i);
  }

  /** `s.split(sep)` for a one-character separator: the pieces between the separators. */
  function Split(s: string, sep: char): (pieces: seq<string>)
    ensures |pieces| >= 1
    ensures forall k :: 0 <= k < |pieces| ==> sep !in pieces[k]
    decreases |s|
  {
    var i := IndexOf(s, sep);
    if i == |s| then [s] else [s[..i]] + Split(s[i + 1..], sep)
  }

  /** `pieces.join(sep)` */
  function Join(pieces: seq<string>, sep: string): string
  {
    if |pieces| == 0 then ""
    else if |pieces| == 1 then pieces[0]
    else pieces[0] + sep + Join(pieces[1..], sep)
  }

  /** `split` is undone by `join` with the same separator. */
  lemma {:induction false} JoinSplit(s: string, sep: char)
    ensures Join(Split(s, sep), [sep]) == s
    decreases |s|
  {
    var i := IndexOf(s, sep);
    if i < |s| {
      var rest := s[i + 1..];
      JoinSplit(rest, sep);
      var tail := Split(rest, sep);
      assert Split(s, sep) == [s[..i]] + tail;
      assert s == s[..i] + [sep] + rest;
    }
  }

  /** A piece without the separator, followed by the separator, is split off first. */
  lemma SplitCons(a: string, sep: char, rest: string)
    requires sep !in a
    ensures Split(a + [sep] + rest, sep) == [a] + Split(rest, sep)
  {
    var s := a + [sep] + rest;
    assert s[|a|] == sep;
    assert forall k :: 0 <= k < |a| ==> s[k] == a[k];
    IndexOfIs(s, sep, |a|);
    assert s[..|a|] == a;
    assert s[|a| + 1..] == rest;
  }

  /**
   * The first piece is `a` and more follow exactly when `s` starts with `a`
   * and then the separator, `a` itself holding none; it is the only piece
   * exactly when `s` is `a` without any separator.
   */
  lemma SplitFirst(s: string, sep: char, a: string)
    ensures (Split(s, sep)[0] == a && |Split(s, sep)| > 1) <==> (sep !in a && a + [sep] <= s)
    ensures Split(s, sep) == [a] <==> (sep !in a && s == a)
  {
    var i := IndexOf(s, sep);
    SplitHead(s, sep);
    if sep !in a && a + [sep] <= s {
      assert s[|a|] == sep;
      assert forall k :: 0 <= k < |a| ==> s[k] == a[k];
      IndexOfIs(s, sep, |a|);
      assert s[..i] == a;
    }
    if i < |s| {
      assert s[..i] + [sep] == s[..i + 1];
    }
    if sep !in s {
      IndexOfIs(s, sep, |s|);
    }
  }

  /** The first piece runs up to the first separator, and more pieces follow exactly when there is one. */
  lemma SplitHead(s: string, sep: char)
    ensures var i := IndexOf(s, sep);
      Split(s, sep)[0] == s[..i] && (|Split(s, sep)| > 1 <==> i < |s|)
  {
    var i := IndexOf(s, sep);
    if i < |s| {
      assert Split(s, sep) == [s[..i]] + Split(s[i + 1..], sep);
    } else {
      assert s[..i] == s;
    }
  }

  /** A string without the separator is one piece. */
  lemma SplitNoSep(a: string, sep: char)
    requires sep !in a
    ensures Split(a, sep) == [a]
  {
    assert IndexOf(a, sep) == |a|;
  }

  /** What follows the last separator is the last piece (`split(sep).pop()`). */
  lemma {:induction false} LastPieceAfter(a: string, sep: char, b: string)
    requires sep !in b
    ensures var pieces := Split(a + [sep] + b, sep); pieces[|pieces| - 1] == b
    decreases |a|
  {
    var i := IndexOf(a, sep);
    var s := a + [sep] + b;
    if i < |a| {
      IndexOfAppend(a, [sep] + b, sep);
      assert s == a + ([sep] + b);
      assert s[i + 1..] == a[i + 1..] + [sep] + b;
      LastPieceAfter(a[i + 1..], sep, b);
      SplitHead(s, sep);
      assert Split(s, sep) == [s[..i]] + Split(s[i + 1..], sep);
    } else {
      assert sep !in a by {
        forall k | 0 <= k < |a| ensures a[k] != sep { }
      }
      SplitCons(a, sep, b);
      SplitNoSep(b, sep);
    }
  }

  /** Every joined piece occurs in the joined string. */
  lemma {:induction false} JoinContains(pieces: seq<string>, sep: string, k: nat)
    requires k < |pieces|
    ensures Contains(Join(pieces, sep), pieces[k])
    decreases |pieces|
  {
    var j := Join(pieces, sep);
    if |pieces| == 1 {
      assert pieces[k] <= j[0..];
    } else if k == 0 {
      assert pieces[0] <= j[0..];
    } else {
      var rest := Join(pieces[1..], sep);
      JoinContains(pieces[1..], sep, k - 1);
      var i :| 0 <= i <= |rest| && pieces[k] <= rest[i..];
      var off := |pieces[0]| + |sep|;
      assert j == pieces[0] + sep + rest;
      assert j[off + i..] == rest[i..];
      assert pieces[k] <= j[off + i..];
    }
  }

  // ---------------------------------------------------------------- trim

  /** `trimStart` */
  function TrimStart(s: string): (r: string)
    ensures r == [] || !IsJsWhitespace(r[0])
    ensures |r| <= |s| && r == s[|s| - |r|..]
    ensures forall i :: 0 <= i < |s| - |r| ==> IsJsWhitespace(s[i])
  {
    if s != [] && IsJsWhitespace(s[0]) then TrimStart(s[1..]) else s
  }

  /** `trimEnd` */
  function TrimEnd(s: string): (r: string)
    ensures r == [] || !IsJsWhitespace(r[|r| - 1])
    ensures |r| <= |s| && r == s[..|r|]
    ensures forall i :: |r| <= i < |s| ==> IsJsWhitespace(s[i])
  {
    if s != [] && IsJsWhitespace(s[|s| - 1]) then TrimEnd(s[..|s| - 1]) else s
  }

  /** `s.trim()` */
  function Trim(s: string): string { TrimEnd(TrimStart(s)) }

  /** Every character of `s` is white space. */
  predicate IsBlank(s: string) {
    forall i | 0 <= i < |s| :: IsJsWhitespace(s[i])
  }

  lemma {:induction false} TrimStartEmpty(s: string)
    ensures TrimStart(s) == [] <==> IsBlank(s)
  {
    if s != [] && IsJsWhitespace(s[0]) {
      TrimStartEmpty(s[1..]);
      BlankCons(s);
    }
  }

  /** A non-empty string is blank when its first character is white space and the rest is blank. */
  lemma BlankCons(s: string)
    requires s != [] && IsJsWhitespace(s[0])
    ensures IsBlank(s) <==> IsBlank(s[1..])
  {
    if IsBlank(s[1..]) {
      forall i | 0 <= i < |s| ensures IsJsWhitespace(s[i]) {
        if i > 0 { assert s[i] == s[1..][i - 1]; }
      }
    }
    if IsBlank(s) {
      forall i | 0 <= i < |s| - 1 ensures IsJsWhitespace(s[1..][i]) {
        assert s[1..][i] == s[i + 1];
      }
    }
  }

  lemma {:induction false} TrimEndEmpty(s: string)
    ensures TrimEnd(s) == [] <==> IsBlank(s)
  {
    if s != [] && IsJsWhitespace(s[|s| - 1]) {
      var t := s[..|s| - 1];
      TrimEndEmpty(t);
      assert IsBlank(s) <==> IsBlank(t) by {
        if IsBlank(t) {
          forall i | 0 <= i < |s| ensures IsJsWhitespace(s[i]) {
            if i < |s| - 1 { assert s[i] == t[i]; }
          }
        }
      }
    }
  }

  /** `s.trim() === ''` holds exactly of the all-white-space strings. */
  lemma TrimEmptyIffBlank(s: string)
    ensures Trim(s) == "" <==> IsBlank(s)
  {
    var t := TrimStart(s);
    TrimStartEmpty(s);
    TrimEndEmpty(t);
    if t != [] {
      assert !IsJsWhitespace(t[0]);
    }
  }

  // ---------------------------------------------------------------- case and padding

  function LowerAscii(c: char): char {
    if 'A' <= c <= 'Z' then (c as int - 'A' as int + 'a' as int) as char else c
  }

  /** `s.toLowerCase()` on ASCII letters; every other character is left as it is. */
  function ToLowerAscii(s: string): (r: string)
    ensures |r| == |s|
    ensures forall i :: 0 <= i < |r| ==> !('A' <= r[i] <= 'Z')
    ensures forall i :: 0 <= i < |r| ==>
      if 'A' <= s[i] <= 'Z' then r[i] as int == s[i] as int + 32 else r[i] == s[i]
  {
    seq(|s|, i requires 0 <= i < |s| => LowerAscii(s[i]))
  }

  /** `s.padStart(n, fill)` with a one-character fill. */
  function PadStart(s: string, n: nat, fill: char): (r: string)
    ensures |r| == if |s| >= n then |s| else n
    ensures s <= r[|r| - |s|..]
    ensures forall i :: 0 <= i < |r| - |s| ==> r[i] == fill
  {
    if |s| >= n then s else seq(n - |s|, _ => fill) + s
  }

  // ---------------------------------------------------------------- numbers

  /** The digit of value `d` in bases up to 16, as `toString` writes it (lowercase letters). */
  function RadixDigit(d: nat): (c: char)
    requires d < 16
  {
    if d < 10 then ('0' as int + d) as char else ('a' as int + d - 10) as char
  }

  /** `c` is a digit of base `base`, as `toString` writes them. */
  predicate IsRadixDigit(c: char, base: nat) {
    ('0' <= c <= '9' && c as int - '0' as int < base)
    || ('a' <= c <= 'f' && c as int - 'a' as int + 10 < base)
  }

  /** The value of a digit written by `RadixDigit`. */
  function RadixDigitValue(c: char): (d: nat)
    requires IsRadixDigit(c, 16)
    ensures d < 16 && RadixDigit(d) == c
  {
    if '0' <= c <= '9' then c as int - '0' as int else c as int - 'a' as int + 10
  }

  lemma RadixDigitIn(d: nat, base: nat)
    requires base <= 16
    ensures d < base ==> IsRadixDigit(RadixDigit(d), base)
    ensures 0 < d < base ==> RadixDigit(d) != '0'
  {
  }

  lemma DivisionBounds(n: nat, base: nat)
    requires 2 <= base <= n
    ensures 1 <= n / base < n && n % base < base
  {
  }

  /** `n.toString(base)` for a non-negative integer: lowercase digits, no leading zeros. */
  function ToRadix(n: nat, base: nat): (s: string)
    requires 2 <= base <= 16
    ensures |s| >= 1
    ensures forall i :: 0 <= i < |s| ==> IsRadixDigit(s[i], base)
    ensures |s| > 1 ==> s[0] != '0'
    decreases n
  {
    if n < base then RadixDigitIn(n, base); [RadixDigit(n)]
    else
      DivisionBounds(n, base);
      var q, r := n / base, n % base;
      RadixDigitIn(r, base);
      RadixDigitIn(q, base);
      var high := ToRadix(q, base);
      assert |high| == 1 ==> q < base;
      high + [RadixDigit(r)]
  }

  /** `String(n)` for a non-negative integer. */
  function Decimal(n: nat): (s: string)
    ensures |s| >= 1 && forall i :: 0 <= i < |s| ==> IsDigit(s[i])
  {
    ToRadix(n, 10)
  }

  function DigitValue(c: char): nat
    requires IsDigit(c)
  {
    c as int - '0' as int
  }

  /** The number of leading decimal digits of `s`. */
  function DigitRun(s: string): (n: nat)
    ensures n <= |s|
    ensures forall i :: 0 <= i < n ==> IsDigit(s[i])
    ensures n < |s| ==> !IsDigit(s[n])
  {
    if s != [] && IsDigit(s[0]) then 1 + DigitRun(s[1..]) else 0
  }

  /** The number of leading `\w` characters of `s`: what a greedy `\w+` consumes. */
  function WordRun(s: string): (n: nat)
    ensures n <= |s|
    ensures forall i :: 0 <= i < n ==> IsWordChar(s[i])
    ensures n < |s| ==> !IsWordChar(s[n])
  {
    if s != [] && IsWordChar(s[0]) then 1 + WordRun(s[1..]) else 0
  }

  /** The value of a string of decimal digits, most significant first. */
  function DigitsValue(ds: string): nat
    requires forall i :: 0 <= i < |ds| ==> IsDigit(ds[i])
  {
    if ds == [] then 0 else DigitsValue(ds[..|ds| - 1]) * 10 + DigitValue(ds[|ds| - 1])
  }

  /** The value of the leading run of decimal digits, when there is at least one digit. */
  function LeadingDigits(u: string): Option<nat> {
    var n := DigitRun(u);
    if n == 0 then None else Some(DigitsValue(u[..n]))
  }

  /**
   * `parseInt(s, 10)`: leading white space is skipped, then an optional sign,
   * then the longest run of decimal digits; `None` stands for `NaN` (no digit).
   */
  function ParseInt(s: string): Option<int>
  {
    var t := TrimStart(s);
    var negative := t != [] && t[0] == '-';
    var u := if t != [] && (t[0] == '-' || t[0] == '+') then t[1..] else t;
    match LeadingDigits(u)
    case None => None
    case Some(m) =>
      var magnitude: int := m;
      if negative then Some(-magnitude) else Some(magnitude)
  }

  lemma {:induction false} DigitsValueDecimal(n: nat)
    ensures DigitsValue(Decimal(n)) == n
    decreases n
  {
    if n >= 10 {
      DigitsValueDecimal(n / 10);
      var s := Decimal(n);
      assert s == Decimal(n / 10) + [RadixDigit(n % 10)];
      assert s[..|s| - 1] == Decimal(n / 10);
    }
  }

  lemma {:induction false} DigitRunOfDigits(ds: string, t: string)
    requires forall i :: 0 <= i < |ds| ==> IsDigit(ds[i])
    requires t == [] || !IsDigit(t[0])
    ensures DigitRun(ds + t) == |ds|
    decreases |ds|
  {
    if ds != [] {
      assert (ds + t)[1..] == ds[1..] + t;
      DigitRunOfDigits(ds[1..], t);
    }
  }

  /**
   * `parseInt` reads back what `String` wrote, and ignores whatever follows
   * the digits when it does not start with a digit.
   */
  lemma ParseIntDecimal(n: nat, t: string)
    requires t == [] || !IsDigit(t[0])
    ensures ParseInt(Decimal(n) + t) == Some(n)
  {
    var s := Decimal(n) + t;
    LeadingDigitsDecimal(n, t);
    assert s[0] == Decimal(n)[0];
    ParseIntUnsigned(s);
  }

  /** Text that starts with a digit has no sign and no white space to skip. */
  lemma ParseIntUnsigned(s: string)
    requires s != [] && IsDigit(s[0])
    ensures ParseInt(s) == LeadingDigits(s)
  {
    assert !IsJsWhitespace(s[0]);
    assert TrimStart(s) == s;
  }

  /** The digits `String` wrote are read back, whatever non-digit follows them. */
  lemma LeadingDigitsDecimal(n: nat, t: string)
    requires t == [] || !IsDigit(t[0])
    ensures LeadingDigits(Decimal(n) + t) == Some(n)
  {
    var d := Decimal(n);
    DigitRunOfDigits(d, t);
    assert (d + t)[..|d|] == d;
    DigitsValueDecimal(n);
  }

  /** `parseInt(String(n), 10) == n` */
  lemma ParseIntOfDecimal(n: nat)
    ensures ParseInt(Decimal(n)) == Some(n)
  {
    ParseIntDecimal(n, "");
    assert Decimal(n) + "" == Decimal(n);
  }

  /** `parseInt` keeps the sign: after a leading `-`, the digits are read and negated. */
  lemma ParseIntMinus(u: string)
    requires LeadingDigits(u).Some?
    ensures ParseInt("-" + u) == Some(-(LeadingDigits(u).value as int))
  {
    var s := "-" + u;
    assert s[0] == '-' && !IsJsWhitespace(s[0]);
    assert TrimStart(s) == s;
    assert s[1..] == u;
  }
}
