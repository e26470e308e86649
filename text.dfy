/**
 * The .NET string operations the application relies on, on `seq<char>`:
 * case mapping (ASCII only), prefix and substring tests, whitespace, trimming,
 * removal of one character, and decimal formatting and parsing of 32-bit integers
 * and booleans (the conversions behind `Convert.ChangeType`).
 */
module Text {
  import opened Wrappers

  const Int32Min: int := -0x8000_0000
  const Int32Max: int := 0x7FFF_FFFF

  predicate InInt32(n: int) {
    Int32Min <= n <= Int32Max
  }

  // ---------------------------------------------------------------- case

  function ToLowerChar(c: char): char {
    if 'A' <= c <= 'Z' then (c as int + 32) as char else c
  }

  function ToUpperChar(c: char): char {
    if 'a' <= c <= 'z' then (c as int - 32) as char else c
  }

  /** `ToLowerInvariant` / `ToLower`, restricted to the ASCII letters. */
  function ToLower(s: string): (r: string)
    ensures |r| == |s|
    ensures forall i :: 0 <= i < |s| ==> r[i] == ToLowerChar(s[i])
  {
    seq(|s|, i requires 0 <= i < |s| => ToLowerChar(s[i]))
  }

  /** Lower-casing twice is lower-casing once. */
  lemma ToLowerIdempotent(s: string)
    ensures ToLower(ToLower(s)) == ToLower(s)
  {
  }

  /** `ToUpperInvariant`, restricted to the ASCII letters. */
  function ToUpper(s: string): (r: string)
    ensures |r| == |s|
    ensures forall i :: 0 <= i < |s| ==> r[i] == ToUpperChar(s[i])
  {
    seq(|s|, i requires 0 <= i < |s| => ToUpperChar(s[i]))
  }

  // ---------------------------------------------------------------- prefixes, substrings

  /** Ordinal `s.StartsWith(prefix)`. */
  predicate StartsWith(s: string, prefix: string) {
    |prefix| <= |s| && s[..|prefix|] == prefix
  }

  /** `s.StartsWith(prefix, StringComparison.OrdinalIgnoreCase)`. */
  predicate StartsWithIgnoreCase(s: string, prefix: string) {
    StartsWith(ToUpper(s), ToUpper(prefix))
  }

  /** Ordinal `s.Contains(sub)`. */
  predicate Contains(s: string, sub: string) {
    exists i :: 0 <= i <= |s| && StartsWith(s[i..], sub)
  }

  lemma StartsWithAppend(p: string, rest: string)
    ensures StartsWith(p + rest, p)
  {
    assert (p + rest)[..|p|] == p;
  }

  // ---------------------------------------------------------------- whitespace

  /** The white-space characters of `char.IsWhiteSpace`. */
  predicate IsWhiteSpace(c: char) {
    || '\t' <= c <= '\r' || c == ' ' || c == '\U{0085}' || c == '\U{00A0}' || c == '\U{1680}'
    || '\U{2000}' <= c <= '\U{200A}' || c == '\U{2028}' || c == '\U{2029}' || c == '\U{202F}'
    || c == '\U{205F}' || c == '\U{3000}'
  }

  /** `string.IsNullOrWhiteSpace` for a non-null string. */
  predicate IsBlank(s: string) {
    forall i :: 0 <= i < |s| ==> IsWhiteSpace(s[i])
  }

  /**
   * The white space the integer parser skips around a number (`NumberStyles.AllowLeadingWhite`
   * and `AllowTrailingWhite`): U+0009 to U+000D and the space, and no other.
   */
  predicate IsNumberWhiteSpace(c: char) {
    c == ' ' || '\t' <= c <= '\r'
  }

  predicate IsNul(c: char) {
    c == '\0'
  }

  /** What `Boolean.Parse` trims from both ends: white space and the null character. */
  predicate IsWhiteSpaceOrNul(c: char) {
    IsWhiteSpace(c) || c == '\0'
  }

  /** `s.TrimStart(...)`: the leading characters `drop` holds of are removed (`TrimStartSplit`). */
  function TrimStart(s: string, drop: char -> bool): (r: string)
    ensures |r| <= |s|
    ensures r == [] || !drop(r[0])
  {
    if s != [] && drop(s[0]) then TrimStart(s[1..], drop) else s
  }

  /** `s.TrimEnd(...)`: the trailing characters `drop` holds of are removed (`TrimEndSplit`). */
  function TrimEnd(s: string, drop: char -> bool): (r: string)
    ensures |r| <= |s|
    ensures r == [] || !drop(r[|r| - 1])
  {
    if s != [] && drop(s[|s| - 1]) then TrimEnd(s[..|s| - 1], drop) else s
  }

  /** What `TrimStart` removes is a run of characters `drop` holds of, and nothing else. */
  lemma {:induction false} TrimStartSplit(s: string, drop: char -> bool) returns (lead: string)
    ensures s == lead + TrimStart(s, drop)
    ensures forall i :: 0 <= i < |lead| ==> drop(lead[i])
  {
    if s != [] && drop(s[0]) {
      var lead' := TrimStartSplit(s[1..], drop);
      lead := [s[0]] + lead';
      assert s == [s[0]] + s[1..];
      assert forall i :: 1 <= i < |lead| ==> lead[i] == lead'[i - 1];
    } else {
      lead := [];
    }
  }

  /** What `TrimEnd` removes is a run of characters `drop` holds of, and nothing else. */
  lemma {:induction false} TrimEndSplit(s: string, drop: char -> bool) returns (tail: string)
    ensures s == TrimEnd(s, drop) + tail
    ensures forall i :: 0 <= i < |tail| ==> drop(tail[i])
  {
    if s != [] && drop(s[|s| - 1]) {
      var tail' := TrimEndSplit(s[..|s| - 1], drop);
      tail := tail' + [s[|s| - 1]];
      assert s == s[..|s| - 1] + [s[|s| - 1]];
      assert forall i :: 0 <= i < |tail'| ==> tail[i] == tail'[i];
    } else {
      tail := [];
    }
  }

  /** Trimming text that neither starts nor ends with a trimmed character changes nothing. */
  lemma TrimNoop(s: string, drop: char -> bool)
    requires s != [] && !drop(s[0]) && !drop(s[|s| - 1])
    ensures TrimEnd(TrimStart(s, drop), drop) == s
  {
  }

  /** A run of trimmed characters in front of text that does not start with one is exactly what goes. */
  lemma {:induction false} TrimStartAfter(lead: string, rest: string, drop: char -> bool)
    requires forall i :: 0 <= i < |lead| ==> drop(lead[i])
    requires rest == [] || !drop(rest[0])
    ensures TrimStart(lead + rest, drop) == rest
  {
    if lead == [] {
      assert lead + rest == rest;
    } else {
      assert (lead + rest)[1..] == lead[1..] + rest;
      TrimStartAfter(lead[1..], rest, drop);
    }
  }

  /** A run of trimmed characters after text that does not end with one is exactly what goes. */
  lemma {:induction false} TrimEndBefore(rest: string, tail: string, drop: char -> bool)
    requires forall i :: 0 <= i < |tail| ==> drop(tail[i])
    requires rest == [] || !drop(rest[|rest| - 1])
    ensures TrimEnd(rest + tail, drop) == rest
  {
    if tail == [] {
      assert rest + tail == rest;
    } else {
      var tail' := tail[..|tail| - 1];
      assert (rest + tail)[..|rest + tail| - 1] == rest + tail';
      TrimEndBefore(rest, tail', drop);
    }
  }

  // ---------------------------------------------------------------- removing characters

  /** `s.Replace(c.ToString(), string.Empty)`: every occurrence of `c` removed. */
  function RemoveChar(s: string, c: char): (r: string)
    ensures c !in r
    ensures |r| <= |s|
    ensures forall d :: d in r ==> d in s
    ensures forall d :: d != c ==> multiset(r)[d] == multiset(s)[d]
  {
    if s == [] then []
    else
      assert s == [s[0]] + s[1..];
      if s[0] == c then RemoveChar(s[1..], c)
      else [s[0]] + RemoveChar(s[1..], c)
  }

  /** Removing a character that does not occur changes nothing. */
  lemma {:induction false} RemoveCharAbsent(s: string, c: char)
    requires c !in s
    ensures RemoveChar(s, c) == s
  {
    if s != [] {
      RemoveCharAbsent(s[1..], c);
    }
  }

  /** Removal works piecewise, so the characters that stay keep their order. */
  lemma {:induction false} RemoveCharAppend(a: string, b: string, c: char)
    ensures RemoveChar(a + b, c) == RemoveChar(a, c) + RemoveChar(b, c)
  {
    if a == [] {
      assert a + b == b;
    } else {
      assert (a + b)[1..] == a[1..] + b;
      RemoveCharAppend(a[1..], b, c);
    }
  }

  // ---------------------------------------------------------------- decimal numbers

  /** The texts of the items of `s`, one after the other. */
  function ConcatMap<T>(s: seq<T>, f: T -> string): string {
    if s == [] then "" else ConcatMap(s[..|s| - 1], f) + f(s[|s| - 1])
  }

  /** Concatenating the texts of two lists is concatenating the two texts. */
  lemma {:induction false} ConcatMapAppend<T>(a: seq<T>, b: seq<T>, f: T -> string)
    ensures ConcatMap(a + b, f) == ConcatMap(a, f) + ConcatMap(b, f)
  {
    if b == [] {
      assert a + b == a;
    } else {
      var b' := b[..|b| - 1];
      assert (a + b)[..|a + b| - 1] == a + b';
      assert (a + b)[|a + b| - 1] == b[|b| - 1];
      ConcatMapAppend(a, b', f);
    }
  }

  predicate IsDigit(c: char) {
    '0' <= c <= '9'
  }

  predicate AllDigits(s: string) {
    forall i :: 0 <= i < |s| ==> IsDigit(s[i])
  }

  function DigitChar(d: nat): (c: char)
    requires d < 10
    ensures IsDigit(c)
  {
    ('0' as int + d) as char
  }

  function DigitValue(c: char): (d: nat)
    requires IsDigit(c)
    ensures d < 10
  {
    c as int - '0' as int
  }

  /** The decimal digits of `n`, most significant first, with no leading zero. */
  function FormatNat(n: nat): (r: string)
    ensures r != [] && AllDigits(r)
  {
    if n < 10 then [DigitChar(n)] else FormatNat(n / 10) + [DigitChar(n % 10)]
  }

  /** `n.ToString()` for an `int`, with the invariant culture's minus sign. */
  function FormatInt(n: int): (r: string)
    ensures r != [] && (r[0] == '-' || IsDigit(r[0]))
  {
    if n < 0 then "-" + FormatNat(-n) else FormatNat(n)
  }

  /** The value of a string of decimal digits. */
  function DigitsValue(s: string): nat
    requires AllDigits(s)
  {
    if s == [] then 0 else DigitsValue(s[..|s| - 1]) * 10 + DigitValue(s[|s| - 1])
  }

  lemma {:induction false} DigitsValueOfFormat(n: nat)
    ensures DigitsValue(FormatNat(n)) == n
  {
    if n >= 10 {
      var r := FormatNat(n);
      assert r[..|r| - 1] == FormatNat(n / 10);
      DigitsValueOfFormat(n / 10);
    }
  }

  /** A sign the invariant culture admits in front of a number: none, "+" or "-". */
  predicate IsSign(sign: string) {
    sign == "" || sign == "+" || sign == "-"
  }

  /** The value of the digits, negated after a minus sign. */
  function SignedValue(sign: string, digits: string): int
    requires AllDigits(digits)
  {
    if sign == "-" then -(DigitsValue(digits) as int) else DigitsValue(digits)
  }

  /**
   * The text the integer parser reads a number from: the leading number white space, the
   * trailing null characters and then the trailing number white space removed.
   */
  function NumberText(s: string): string {
    TrimEnd(TrimEnd(TrimStart(s, IsNumberWhiteSpace), IsNul), IsNumberWhiteSpace)
  }

  /**
   * `Int32.Parse` with `NumberStyles.Integer`, as `Convert.ChangeType` calls it: number
   * white space around an optional sign and at least one decimal digit, null characters at
   * the very end, and a value in the 32-bit range; `None` is the `FormatException` or
   * `OverflowException`. `ParseIntAccepts` and `ParseIntOnlyLayout` state which texts these are.
   */
  function ParseInt(s: string): (r: Option<int>)
    ensures r.Some? ==> InInt32(r.value)
  {
    ReadSigned(NumberText(s))
  }

  /** The number itself: an optional sign, then at least one digit, then nothing else. */
  function ReadSigned(t: string): (r: Option<int>)
    ensures r.Some? ==> InInt32(r.value)
  {
    if t == [] then None
    else
      var sign := if t[0] == '-' || t[0] == '+' then t[..1] else "";
      var digits := t[|sign|..];
      if digits == [] || !AllDigits(digits) then None
      else if InInt32(SignedValue(sign, digits)) then Some(SignedValue(sign, digits))
      else None
  }

  /** The layout of a text the integer parser accepts, cut into its five parts. */
  predicate IntegerLayout(lead: string, sign: string, digits: string, trail: string, nuls: string) {
    && (forall i :: 0 <= i < |lead| ==> IsNumberWhiteSpace(lead[i]))
    && IsSign(sign)
    && digits != [] && AllDigits(digits)
    && (forall i :: 0 <= i < |trail| ==> IsNumberWhiteSpace(trail[i]))
    && (forall i :: 0 <= i < |nuls| ==> IsNul(nuls[i]))
  }

  /** The text around a number that neither begins nor ends with a trimmed character is the number. */
  lemma NumberTextOf(lead: string, core: string, trail: string, nuls: string)
    requires forall i :: 0 <= i < |lead| ==> IsNumberWhiteSpace(lead[i])
    requires forall i :: 0 <= i < |trail| ==> IsNumberWhiteSpace(trail[i])
    requires forall i :: 0 <= i < |nuls| ==> IsNul(nuls[i])
    requires core != [] && !IsNumberWhiteSpace(core[0])
    requires !IsNumberWhiteSpace(core[|core| - 1]) && !IsNul(core[|core| - 1])
    ensures NumberText(lead + core + trail + nuls) == core
  {
    var mid := core + trail;
    assert lead + core + trail + nuls == lead + (mid + nuls);
    assert (mid + nuls)[0] == core[0];
    TrimStartAfter(lead, mid + nuls, IsNumberWhiteSpace);
    assert mid[|mid| - 1] == if trail == [] then core[|core| - 1] else trail[|trail| - 1];
    TrimEndBefore(mid, nuls, IsNul);
    TrimEndBefore(core, trail, IsNumberWhiteSpace);
  }

  /** A sign followed by digits reads as its signed value when that fits 32 bits. */
  lemma ReadSignedOf(sign: string, digits: string)
    requires IsSign(sign) && digits != [] && AllDigits(digits)
    ensures ReadSigned(sign + digits)
         == if InInt32(SignedValue(sign, digits)) then Some(SignedValue(sign, digits)) else None
  {
    var t := sign + digits;
    if sign == "" {
      assert t == digits;
    } else {
      assert t[0] == sign[0] && t[..1] == sign && t[1..] == digits;
    }
  }

  /** A text of that layout reads as its signed value when that fits 32 bits, and as null otherwise. */
  lemma ParseIntAccepts(lead: string, sign: string, digits: string, trail: string, nuls: string)
    requires IntegerLayout(lead, sign, digits, trail, nuls)
    ensures ParseInt(lead + sign + digits + trail + nuls)
         == if InInt32(SignedValue(sign, digits)) then Some(SignedValue(sign, digits)) else None
  {
    var core := sign + digits;
    assert lead + sign + digits + trail + nuls == lead + core + trail + nuls;
    assert core[0] == (if sign == "" then digits[0] else sign[0]);
    assert core[|core| - 1] == digits[|digits| - 1];
    NumberTextOf(lead, core, trail, nuls);
    ReadSignedOf(sign, digits);
  }

  /** Concatenation is associative. */
  lemma ConcatAssoc<T>(a: seq<T>, b: seq<T>, c: seq<T>)
    ensures a + (b + c) == a + b + c
  {
  }

  /** Any text is its number text with the trimmed runs around it. */
  lemma SplitNumberText(s: string) returns (lead: string, trail: string, nuls: string)
    ensures s == lead + NumberText(s) + trail + nuls
    ensures forall i :: 0 <= i < |lead| ==> IsNumberWhiteSpace(lead[i])
    ensures forall i :: 0 <= i < |trail| ==> IsNumberWhiteSpace(trail[i])
    ensures forall i :: 0 <= i < |nuls| ==> IsNul(nuls[i])
  {
    var a := TrimStart(s, IsNumberWhiteSpace);
    lead := TrimStartSplit(s, IsNumberWhiteSpace);
    var b := TrimEnd(a, IsNul);
    nuls := TrimEndSplit(a, IsNul);
    trail := TrimEndSplit(b, IsNumberWhiteSpace);
    var c := TrimEnd(b, IsNumberWhiteSpace);
    assert NumberText(s) == c;
    ConcatAssoc(lead, c + trail, nuls);
    ConcatAssoc(lead, c, trail);
  }

  /** A number that reads is a sign followed by digits, and reads as their signed value. */
  lemma SplitSigned(t: string) returns (sign: string, digits: string)
    requires ReadSigned(t).Some?
    ensures t == sign + digits && IsSign(sign) && digits != [] && AllDigits(digits)
    ensures ReadSigned(t) == Some(SignedValue(sign, digits))
  {
    sign := if t[0] == '-' || t[0] == '+' then t[..1] else "";
    digits := t[|sign|..];
    assert t == sign + digits;
  }

  /** Only such texts are read: a text the integer parser accepts has that layout and reads as its value. */
  lemma ParseIntOnlyLayout(s: string)
    requires ParseInt(s).Some?
    ensures exists lead, sign, digits, trail, nuls ::
      && IntegerLayout(lead, sign, digits, trail, nuls)
      && s == lead + sign + digits + trail + nuls
      && ParseInt(s) == Some(SignedValue(sign, digits))
  {
    var lead, trail, nuls := SplitNumberText(s);
    var t := NumberText(s);
    var sign, digits := SplitSigned(t);
    assert ParseInt(s) == Some(SignedValue(sign, digits));
    ConcatAssoc(lead, sign, digits);
    assert s == lead + sign + digits + trail + nuls;
    assert IntegerLayout(lead, sign, digits, trail, nuls);
  }

  /** Formatting a 32-bit integer and parsing it back gives the integer. */
  lemma ParseFormatInt(n: int)
    requires InInt32(n)
    ensures ParseInt(FormatInt(n)) == Some(n)
  {
    var sign := if n < 0 then "-" else "";
    var m: nat := if n < 0 then -n else n;
    var digits := FormatNat(m);
    DigitsValueOfFormat(m);
    var f := FormatInt(n);
    assert f == sign + digits;
    assert f[|f| - 1] == digits[|digits| - 1];
    assert f[0] == if n < 0 then '-' else digits[0];
    NumberTextOf([], f, [], []);
    assert [] + f + [] + [] == f;
    ReadSignedOf(sign, digits);
  }

  /**
   * `Boolean.Parse`: white space and null characters trimmed from both ends, then "true" or
   * "false" in any case; `None` is the `FormatException`. `ParseBoolAccepts` and
   * `ParseBoolOnlyLayout` state which texts these are.
   */
  function ParseBool(s: string): Option<bool> {
    var t := ToLower(TrimEnd(TrimStart(s, IsWhiteSpaceOrNul), IsWhiteSpaceOrNul));
    if t == "true" then Some(true) else if t == "false" then Some(false) else None
  }

  /** The layout of a text `Boolean.Parse` accepts: a literal between two trimmed runs. */
  predicate BoolLayout(pre: string, word: string, post: string) {
    && (forall i :: 0 <= i < |pre| ==> IsWhiteSpaceOrNul(pre[i]))
    && (ToLower(word) == "true" || ToLower(word) == "false")
    && (forall i :: 0 <= i < |post| ==> IsWhiteSpaceOrNul(post[i]))
  }

  /** A text of that layout reads as its literal, whatever the case of its letters. */
  lemma ParseBoolAccepts(pre: string, word: string, post: string)
    requires BoolLayout(pre, word, post)
    ensures ParseBool(pre + word + post) == Some(ToLower(word) == "true")
  {
    assert ToLowerChar(word[0]) == ToLower(word)[0];
    assert ToLowerChar(word[|word| - 1]) == ToLower(word)[|word| - 1];
    assert pre + word + post == pre + (word + post);
    TrimStartAfter(pre, word + post, IsWhiteSpaceOrNul);
    TrimEndBefore(word, post, IsWhiteSpaceOrNul);
  }

  /** Only such texts are read, each as the literal it holds. */
  lemma ParseBoolOnlyLayout(s: string)
    requires ParseBool(s).Some?
    ensures exists pre, word, post ::
      BoolLayout(pre, word, post) && s == pre + word + post && ParseBool(s) == Some(ToLower(word) == "true")
  {
    var a := TrimStart(s, IsWhiteSpaceOrNul);
    var pre := TrimStartSplit(s, IsWhiteSpaceOrNul);
    var word := TrimEnd(a, IsWhiteSpaceOrNul);
    var post := TrimEndSplit(a, IsWhiteSpaceOrNul);
    assert s == pre + word + post;
    assert BoolLayout(pre, word, post);
  }

  /** The two literals `bool.ToString()` writes, lower-cased, read back as their booleans. */
  lemma ParseBoolLiterals(b: bool)
    ensures ParseBool(if b then "true" else "false") == Some(b)
  {
    var w := if b then "true" else "false";
    assert ToLower(w) == w;
    assert BoolLayout("", w, "");
    ParseBoolAccepts("", w, "");
    assert "" + w + "" == w;
  }
}
