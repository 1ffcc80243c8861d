/**
 * The parts of the Java library the configuration reader relies on:
 * `String.split` with a one-character separator, `String.trim` and
 * `Integer.parseInt`, with their edge cases.
 */
module JavaText {
  import opened Wrappers

  /** A Java `int`. */
  newtype Int32 = x: int | -0x8000_0000 <= x < 0x8000_0000

  // ---------------------------------------------------------------- trim

  /** `String.trim` removes every leading and trailing character whose code is at most U+0020. */
  predicate IsBlank(c: char) {
    c <= ' '
  }

  /** The index of the first non-blank of `s` at or after `from`, or `|s|`. */
  function SkipBlanks(s: string, from: nat): (i: nat)
    requires from <= |s|
    ensures from <= i <= |s|
    ensures forall k | from <= k < i :: IsBlank(s[k])
    ensures i < |s| ==> !IsBlank(s[i])
    decreases |s| - from
  {
    if from < |s| && IsBlank(s[from]) then SkipBlanks(s, from + 1) else from
  }

  /** The end of `s[lo..hi]` once its trailing blanks are dropped. */
  function SkipTrailingBlanks(s: string, lo: nat, hi: nat): (j: nat)
    requires lo <= hi <= |s|
    ensures lo <= j <= hi
    ensures forall k | j <= k < hi :: IsBlank(s[k])
    ensures lo < j ==> !IsBlank(s[j - 1])
    decreases hi
  {
    if lo < hi && IsBlank(s[hi - 1]) then SkipTrailingBlanks(s, lo, hi - 1) else hi
  }

  /** `s.trim()`: the slice between the leading and the trailing run of blanks. */
  function Trim(s: string): (r: string)
    ensures |r| <= |s|
    ensures r != [] ==> !IsBlank(r[0]) && !IsBlank(r[|r| - 1])
    ensures forall c | c in r :: c in s
  {
    var start := SkipBlanks(s, 0);
    s[start..SkipTrailingBlanks(s, start, |s|)]
  }

  /**
   * `Trim(s)` is the slice `s[i..j]` that leaves only blanks outside it and,
   * when it is not empty, starts and ends with a non-blank: any such slice
   * is the trimmed string.
   */
  lemma TrimIsInnerSlice(s: string, i: nat, j: nat)
    requires i <= j <= |s|
    requires forall k | 0 <= k < i :: IsBlank(s[k])
    requires forall k | j <= k < |s| :: IsBlank(s[k])
    requires i < j ==> !IsBlank(s[i]) && !IsBlank(s[j - 1])
    ensures Trim(s) == s[i..j]
  {
    var start := SkipBlanks(s, 0);
    if i < j {
      assert start == i;
      assert SkipTrailingBlanks(s, start, |s|) == j;
    } else {
      assert start == |s|;
    }
  }

  // ---------------------------------------------------------------- split

  /** The index of the first `c` in `s` at or after `from`, or `|s|` when there is none. */
  function IndexFrom(s: string, c: char, from: nat): (i: nat)
    requires from <= |s|
    ensures from <= i <= |s|
    ensures forall k | from <= k < i :: s[k] != c
    ensures i < |s| ==> s[i] == c
    decreases |s| - from
  {
    if from == |s| || s[from] == c then from else IndexFrom(s, c, from + 1)
  }

  /** Every index that has the three properties of `IndexFrom` is `IndexFrom`. */
  lemma {:induction false} IndexFromUnique(s: string, c: char, from: nat, i: nat)
    requires from <= i <= |s|
    requires forall k | from <= k < i :: s[k] != c
    requires i < |s| ==> s[i] == c
    ensures IndexFrom(s, c, from) == i
    decreases |s| - from
  {
    if from < i {
      IndexFromUnique(s, c, from + 1, i);
    }
  }

  /** The pieces of `s` between occurrences of `sep`, empty pieces included. */
  function Pieces(s: string, sep: char): (ps: seq<string>)
    ensures |ps| >= 1
    decreases |s|
  {
    var i := IndexFrom(s, sep, 0);
    if i == |s| then [s] else [s[..i]] + Pieces(s[i + 1..], sep)
  }

  /** No piece holds the separator. */
  lemma {:induction false} PiecesHaveNoSeparator(s: string, sep: char)
    ensures forall k | 0 <= k < |Pieces(s, sep)| :: sep !in Pieces(s, sep)[k]
    decreases |s|
  {
    var i := IndexFrom(s, sep, 0);
    if i < |s| {
      var rest := s[i + 1..];
      PiecesHaveNoSeparator(rest, sep);
      assert Pieces(s, sep) == [s[..i]] + Pieces(rest, sep);
    }
  }

  /** `ps` without its trailing empty strings. */
  function DropTrailingEmpty(ps: seq<string>): (r: seq<string>)
    ensures |r| <= |ps| && r == ps[..|r|]
    ensures forall k | |r| <= k < |ps| :: ps[k] == ""
    ensures r == [] || r[|r| - 1] != ""
    decreases |ps|
  {
    if ps != [] && ps[|ps| - 1] == "" then DropTrailingEmpty(ps[..|ps| - 1]) else ps
  }

  /**
   * `s.split(sep)` for a separator that is not a regular-expression
   * metacharacter: when `sep` does not occur the result is `[s]` itself
   * (so `""` gives `[""]`); otherwise it is the pieces with the trailing
   * empty ones removed (so `"a:"` gives `["a"]` and `":"` gives `[]`).
   */
  function Split(s: string, sep: char): (r: seq<string>)
    ensures forall k | 0 <= k < |r| :: sep !in r[k]
    ensures IndexFrom(s, sep, 0) < |s| ==> r == [] || r[|r| - 1] != ""
  {
    if IndexFrom(s, sep, 0) == |s| then [s]
    else
      PiecesHaveNoSeparator(s, sep);
      DropTrailingEmpty(Pieces(s, sep))
  }

  /** When `t` holds a character other than `sep`, some piece of `t` is not empty. */
  lemma {:induction false} NonEmptyPiece(t: string, sep: char, j: nat) returns (k: nat)
    requires j < |t| && t[j] != sep
    ensures k < |Pieces(t, sep)| && Pieces(t, sep)[k] != ""
    decreases |t|
  {
    var i := IndexFrom(t, sep, 0);
    if j < i {
      assert Pieces(t, sep)[0][j] == t[j];
      k := 0;
    } else {
      var rest := t[i + 1..];
      assert rest[j - i - 1] == t[j];
      var k' := NonEmptyPiece(rest, sep, j - i - 1);
      assert Pieces(t, sep) == [t[..i]] + Pieces(rest, sep);
      k := k' + 1;
    }
  }

  /** When `t` is made of `sep` only, every piece of `t` is empty. */
  lemma {:induction false} OnlySeparators(t: string, sep: char)
    requires forall j | 0 <= j < |t| :: t[j] == sep
    ensures forall k | 0 <= k < |Pieces(t, sep)| :: Pieces(t, sep)[k] == ""
    decreases |t|
  {
    if t != [] {
      assert IndexFrom(t, sep, 0) == 0;
      var rest := t[1..];
      OnlySeparators(rest, sep);
      assert Pieces(t, sep) == [""] + Pieces(rest, sep);
    }
  }

  /** A character other than `sep` after the first `sep` gives `s.split(sep)` a second element. */
  lemma SplitSecondFromValue(s: string, sep: char, k: nat)
    requires IndexFrom(s, sep, 0) < k < |s| && s[k] != sep
    ensures |Split(s, sep)| >= 2
  {
    var p := IndexFrom(s, sep, 0);
    var t := s[p + 1..];
    var ps := Pieces(s, sep);
    assert ps == [s[..p]] + Pieces(t, sep);
    assert t[k - p - 1] == s[k];
    var m := NonEmptyPiece(t, sep, k - p - 1);
    assert ps[m + 1] != "";
  }

  /** With only `sep` after the first `sep`, `s.split(sep)` has no second element. */
  lemma SplitNoSecondWithoutValue(s: string, sep: char)
    requires IndexFrom(s, sep, 0) < |s|
    requires forall k | IndexFrom(s, sep, 0) < k < |s| :: s[k] == sep
    ensures |Split(s, sep)| < 2
  {
    var p := IndexFrom(s, sep, 0);
    var t := s[p + 1..];
    var ps := Pieces(s, sep);
    assert ps == [s[..p]] + Pieces(t, sep);
    forall j | 0 <= j < |t| ensures t[j] == sep {
      assert t[j] == s[j + p + 1];
    }
    OnlySeparators(t, sep);
    assert forall m | 1 <= m < |ps| :: ps[m] == Pieces(t, sep)[m - 1];
  }

  /**
   * Where `p` is the first `sep` in `s`: `s.split(sep)` has a second
   * element exactly when something other than `sep` follows `p`.
   */
  lemma SplitHasSecond(s: string, sep: char)
    ensures var p := IndexFrom(s, sep, 0);
      |Split(s, sep)| >= 2 <==> p < |s| && exists k | p < k < |s| :: s[k] != sep
  {
    var p := IndexFrom(s, sep, 0);
    if p < |s| {
      if k :| p < k < |s| && s[k] != sep {
        SplitSecondFromValue(s, sep, k);
      } else {
        SplitNoSecondWithoutValue(s, sep);
      }
    }
  }

  /** Searching a suffix of `s` finds the same occurrence, shifted. */
  lemma IndexFromSuffix(s: string, c: char, from: nat)
    requires from <= |s|
    ensures IndexFrom(s[from..], c, 0) + from == IndexFrom(s, c, from)
  {
    var t := s[from..];
    var q := IndexFrom(t, c, 0);
    forall k | from <= k < q + from ensures s[k] != c {
      assert s[k] == t[k - from];
    }
    if q < |t| {
      assert s[q + from] == t[q];
    }
    IndexFromUnique(s, c, from, q + from);
  }

  /** The first piece is the text before the first `sep`, or all of `s`. */
  lemma PiecesHead(s: string, sep: char)
    ensures Pieces(s, sep)[0] == s[..IndexFrom(s, sep, 0)]
  {
  }

  /** When `sep` occurs in `s`, the first two pieces are the text around its first occurrence. */
  lemma PiecesFirstTwo(s: string, sep: char)
    requires IndexFrom(s, sep, 0) < |s|
    ensures var p := IndexFrom(s, sep, 0); var ps := Pieces(s, sep);
      |ps| >= 2 && ps[0] == s[..p] && ps[1] == s[p + 1..IndexFrom(s, sep, p + 1)]
  {
    var p := IndexFrom(s, sep, 0);
    PiecesCons(s, sep);
    PiecesHeadFrom(s, sep, p + 1);
  }

  /** When `sep` occurs in `s`, the pieces are the text before it, then the pieces of the rest. */
  lemma PiecesCons(s: string, sep: char)
    requires IndexFrom(s, sep, 0) < |s|
    ensures var p := IndexFrom(s, sep, 0);
      Pieces(s, sep) == [s[..p]] + Pieces(s[p + 1..], sep)
  {
  }

  /** The first piece of a suffix runs up to the next `sep` in `s`, or its end. */
  lemma PiecesHeadFrom(s: string, sep: char, from: nat)
    requires from <= |s|
    ensures Pieces(s[from..], sep)[0] == s[from..IndexFrom(s, sep, from)]
  {
    var t := s[from..];
    PiecesHead(t, sep);
    IndexFromSuffix(s, sep, from);
    assert t[..IndexFrom(t, sep, 0)] == s[from..IndexFrom(s, sep, from)];
  }

  /**
   * When `s.split(sep)` has a second element, the first is the text before
   * the first `sep` and the second the text from just after it up to the
   * next `sep` or the end; whatever follows a second `sep` plays no part.
   */
  lemma SplitFirstTwo(s: string, sep: char)
    requires |Split(s, sep)| >= 2
    ensures var p := IndexFrom(s, sep, 0);
      && p < |s|
      && Split(s, sep)[0] == s[..p]
      && Split(s, sep)[1] == s[p + 1..IndexFrom(s, sep, p + 1)]
  {
    var ps := Pieces(s, sep);
    var d := DropTrailingEmpty(ps);
    assert Split(s, sep) == d;
    assert d == ps[..|d|];
    PiecesFirstTwo(s, sep);
  }

  // ---------------------------------------------------------------- parseInt

  predicate IsDigit(c: char) {
    '0' <= c <= '9'
  }

  predicate IsSign(c: char) {
    c == '-' || c == '+'
  }

  predicate AllDigits(s: string) {
    forall k | 0 <= k < |s| :: IsDigit(s[k])
  }

  /** The value of a string of decimal digits, most significant first. */
  function DigitsValue(ds: string): nat
    requires AllDigits(ds)
    decreases |ds|
  {
    if ds == [] then 0
    else DigitsValue(ds[..|ds| - 1]) * 10 + (ds[|ds| - 1] as int - '0' as int)
  }

  /**
   * `Integer.parseInt(s)`; `None` stands for the NumberFormatException it
   * throws. Accepted: an optional `-` or `+`, then at least one digit, the
   * value within the range of `int`. Leading zeros are allowed; blanks are not.
   */
  function ParseInt(s: string): (r: Option<Int32>)
    ensures r.Some? ==> s != [] && (IsSign(s[0]) ==> |s| >= 2)
    ensures r.Some? ==> forall k | 0 <= k < |s| :: IsDigit(s[k]) || (k == 0 && IsSign(s[k]))
  {
    if s == [] then None
    else
      var digits := if IsSign(s[0]) then s[1..] else s;
      if digits == [] || !AllDigits(digits) then None
      else
        var magnitude: int := DigitsValue(digits);
        var v: int := if s[0] == '-' then -magnitude else magnitude;
        if -0x8000_0000 <= v < 0x8000_0000 then Some(v as Int32) else None
  }

  /**
   * The value `parseInt` gives a sign (`-`, `+` or none) followed by
   * decimal digits: the signed value of the digits, leading zeros included,
   * or the NumberFormatException when that value does not fit in an `int`.
   */
  lemma ParseIntValue(sign: string, ds: string)
    requires sign == "" || sign == "-" || sign == "+"
    requires ds != [] && AllDigits(ds)
    ensures var v: int := if sign == "-" then -(DigitsValue(ds) as int) else DigitsValue(ds);
      ParseInt(sign + ds) == if -0x8000_0000 <= v < 0x8000_0000 then Some(v as Int32) else None
  {
    var s := sign + ds;
    if sign == "" {
      assert s == ds;
    } else {
      assert s[0] == sign[0];
      assert s[1..] == ds;
    }
  }

  /** A leading `+` and leading zeros are accepted. */
  lemma ParseIntSignAndZeros()
    ensures ParseInt("+5") == Some(5)
    ensures ParseInt("007") == Some(7)
  {
    ParseIntValue("+", "5");
    ParseIntValue("", "007");
  }

  /** Appending a digit multiplies the value by ten and adds the digit. */
  lemma DigitsValueSnoc(ds: string, d: char)
    requires AllDigits(ds) && IsDigit(d)
    ensures AllDigits(ds + [d])
    ensures DigitsValue(ds + [d]) == DigitsValue(ds) * 10 + (d as int - '0' as int)
  {
    assert (ds + [d])[..|ds|] == ds;
  }

  /** The digits of 2^31. */
  lemma DigitsOfTwoToThe31()
    ensures AllDigits("2147483648") && DigitsValue("2147483648") == 0x8000_0000
  {
    var t := "2";
    assert DigitsValue(t) == 2;
    DigitsValueSnoc(t, '1');
    t := t + ['1'];
    assert DigitsValue(t) == 21;
    DigitsValueSnoc(t, '4');
    t := t + ['4'];
    assert DigitsValue(t) == 214;
    DigitsValueSnoc(t, '7');
    t := t + ['7'];
    assert DigitsValue(t) == 2147;
    DigitsValueSnoc(t, '4');
    t := t + ['4'];
    assert DigitsValue(t) == 21474;
    DigitsValueSnoc(t, '8');
    t := t + ['8'];
    assert DigitsValue(t) == 214748;
    DigitsValueSnoc(t, '3');
    t := t + ['3'];
    assert DigitsValue(t) == 2147483;
    DigitsValueSnoc(t, '6');
    t := t + ['6'];
    assert DigitsValue(t) == 21474836;
    DigitsValueSnoc(t, '4');
    t := t + ['4'];
    assert DigitsValue(t) == 214748364;
    DigitsValueSnoc(t, '8');
    t := t + ['8'];
    assert DigitsValue(t) == 2147483648;
    assert t == "2147483648";
  }

  /** Java's `int` range: 2147483648 is rejected, -2147483648 accepted. */
  lemma ParseIntRange()
    ensures ParseInt("2147483648") == None
    ensures ParseInt("-2147483648") == Some(-0x8000_0000)
  {
    DigitsOfTwoToThe31();
    ParseIntValue("", "2147483648");
    ParseIntValue("-", "2147483648");
  }

  /** A lone sign, a blank and the empty text are not numbers. */
  lemma ParseIntRejects()
    ensures ParseInt("+") == None && ParseInt("-") == None
    ensures ParseInt(" 5") == None && ParseInt("") == None
  {
    assert !IsDigit(' ');
  }

  /** The decimal digits of `n`, without leading zeros. */
  function NatToString(n: nat): string
    decreases n
  {
    var last := [(('0' as int) + n % 10) as char];
    if n < 10 then last else NatToString(n / 10) + last
  }

  /** `Integer.toString(v)`. */
  function IntToString(v: Int32): string {
    if v < 0 then "-" + NatToString(-(v as int)) else NatToString(v as int)
  }

  lemma {:induction false} NatToStringDigits(n: nat)
    ensures NatToString(n) != [] && AllDigits(NatToString(n))
    ensures DigitsValue(NatToString(n)) == n
    decreases n
  {
    var s := NatToString(n);
    if n >= 10 {
      NatToStringDigits(n / 10);
      assert s[..|s| - 1] == NatToString(n / 10);
    }
  }

  /** `parseInt` reads back every `int` that `toString` writes. */
  lemma ParseIntToString(v: Int32)
    ensures ParseInt(IntToString(v)) == Some(v)
  {
    var n: nat := if v < 0 then -(v as int) else v as int;
    NatToStringDigits(n);
    var s := IntToString(v);
    if v < 0 {
      assert s[1..] == NatToString(n);
    } else {
      assert !IsSign(s[0]);
    }
  }
}
