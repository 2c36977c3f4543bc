/** The two string operations the ramp parser relies on: Python 2's
    `str.split()` with no separator, and `int()` of a decimal token. */
module Text {
  import opened Wrappers

  /** The characters Python 2 `str.split()` and `str.strip()` treat as
      whitespace: space, tab, line feed, vertical tab, form feed, carriage return. */
  predicate IsSpace(ch: char) {
    ch == ' ' || ('\t' <= ch <= '\r')
  }

  /** A token of `split()`: non-empty and free of whitespace. */
  predicate IsWord(w: string) {
    |w| > 0 && forall i :: 0 <= i < |w| ==> !IsSpace(w[i])
  }

  /** A line that holds whitespace only (or nothing at all). */
  predicate IsBlank(line: string) {
    forall i :: 0 <= i < |line| ==> IsSpace(line[i])
  }

  /** The length of the run of non-whitespace characters that starts `s`. */
  function WordLength(s: string): (n: nat)
    ensures n <= |s|
    ensures forall i :: 0 <= i < n ==> !IsSpace(s[i])
    ensures n < |s| ==> IsSpace(s[n])
  {
    if |s| == 0 || IsSpace(s[0]) then 0 else 1 + WordLength(s[1..])
  }

  /** `line.strip().split()`: the maximal runs of non-whitespace characters, in order. */
  function Tokens(s: string): (ts: seq<string>)
    ensures forall i :: 0 <= i < |ts| ==> IsWord(ts[i])
    decreases |s|
  {
    if |s| == 0 then []
    else if IsSpace(s[0]) then Tokens(s[1..])
    else
      var n := WordLength(s);
      [s[..n]] + Tokens(s[n..])
  }

  /** A line has no tokens exactly when it is blank, so `filter(None, ...)`
      removes the blank lines and nothing else. */
  lemma {:induction false} NoTokensIffBlank(s: string)
    ensures Tokens(s) == [] <==> IsBlank(s)
    decreases |s|
  {
    if |s| > 0 {
      if IsSpace(s[0]) {
        NoTokensIffBlank(s[1..]);
        if IsBlank(s[1..]) {
          forall i | 0 <= i < |s| ensures IsSpace(s[i]) {
            if i > 0 {
              assert s[i] == s[1..][i - 1];
            }
          }
        }
      }
    }
  }

  /** The words separated by single spaces. */
  function Join(ws: seq<string>): string {
    if |ws| == 0 then ""
    else if |ws| == 1 then ws[0]
    else ws[0] + " " + Join(ws[1..])
  }

  lemma {:induction false} WordLengthOfWord(w: string, tail: string)
    requires IsWord(w)
    requires |tail| == 0 || IsSpace(tail[0])
    ensures WordLength(w + tail) == |w|
    decreases |w|
  {
    var s := w + tail;
    assert s[0] == w[0];
    if |w| > 1 {
      assert s[1..] == w[1..] + tail;
      WordLengthOfWord(w[1..], tail);
    } else {
      assert s[1..] == tail;
    }
  }

  /** A word followed by whitespace (or nothing) splits off as the first token. */
  lemma TokensOfWordThen(w: string, rest: string)
    requires IsWord(w)
    requires |rest| == 0 || IsSpace(rest[0])
    ensures Tokens(w + rest) == [w] + Tokens(rest)
  {
    var s := w + rest;
    WordLengthOfWord(w, rest);
    assert s[..|w|] == w;
    assert s[|w|..] == rest;
  }

  /** Splitting words joined by spaces gives the words back, whatever
      whitespace-led tail (such as a line's own `"\n"`) follows them. */
  lemma {:induction false} TokensOfJoin(ws: seq<string>, tail: string)
    requires forall i :: 0 <= i < |ws| ==> IsWord(ws[i])
    requires |tail| == 0 || IsSpace(tail[0])
    ensures Tokens(Join(ws) + tail) == ws + Tokens(tail)
    decreases |ws|
  {
    if |ws| == 0 {
      assert Join(ws) + tail == tail;
    } else if |ws| == 1 {
      TokensOfWordThen(ws[0], tail);
    } else {
      var inner := Join(ws[1..]) + tail;
      JoinThen(ws, tail);
      TokensOfWordThen(ws[0], " " + inner);
      TokensAfterSpace(" " + inner);
      assert (" " + inner)[1..] == inner;
      TokensOfJoin(ws[1..], tail);
      assert Tokens(Join(ws) + tail) == [ws[0]] + (ws[1..] + Tokens(tail));
      assert ws == [ws[0]] + ws[1..];
    }
  }

  lemma JoinThen(ws: seq<string>, tail: string)
    requires |ws| > 1
    ensures Join(ws) + tail == ws[0] + (" " + (Join(ws[1..]) + tail))
  {
  }

  /** Leading whitespace is skipped. */
  lemma TokensAfterSpace(s: string)
    requires |s| > 0 && IsSpace(s[0])
    ensures Tokens(s) == Tokens(s[1..])
  {
  }

  /** A string of whitespace has no tokens. */
  lemma {:induction false} TokensOfBlank(s: string)
    requires IsBlank(s)
    ensures Tokens(s) == []
  {
    NoTokensIffBlank(s);
  }

  predicate IsDigit(ch: char) {
    '0' <= ch <= '9'
  }

  predicate IsSign(ch: char) {
    ch == '+' || ch == '-'
  }

  predicate AllDigits(s: string) {
    forall i :: 0 <= i < |s| ==> IsDigit(s[i])
  }

  /** The decimal value of a string of digits. */
  function DigitsValue(s: string): nat
    requires AllDigits(s)
  {
    if |s| == 0 then 0
    else DigitsValue(s[..|s| - 1]) * 10 + (s[|s| - 1] as int - '0' as int)
  }

  /** `int(token)` for a token of `split()`: an optional sign followed by one or
      more decimal digits; anything else is a `ValueError`, modelled as `None`. */
  function ParseInt(s: string): (r: Option<int>)
    ensures r.Some? <==>
      && (forall i :: 0 <= i < |s| ==> IsDigit(s[i]) || (i == 0 && IsSign(s[i])))
      && (exists i :: 0 <= i < |s| && IsDigit(s[i]))
  {
    if |s| > 0 && IsSign(s[0]) then
      if |s| > 1 && AllDigits(s[1..]) then
        var magnitude: int := DigitsValue(s[1..]);
        Some(if s[0] == '-' then -magnitude else magnitude)
      else
        assert forall i :: 1 <= i < |s| ==> s[i] == s[1..][i - 1];
        None
    else if |s| > 0 && AllDigits(s) then Some(DigitsValue(s))
    else None
  }

  function DigitChar(d: nat): char
    requires d < 10
  {
    ('0' as int + d) as char
  }

  /** `str(n)` for a natural number: its decimal digits without leading zeros. */
  function ShowNat(n: nat): (s: string)
    ensures |s| > 0 && AllDigits(s)
  {
    if n < 10 then [DigitChar(n)] else ShowNat(n / 10) + [DigitChar(n % 10)]
  }

  /** `str(n)` for an integer. */
  function ShowInt(n: int): string {
    if n < 0 then "-" + ShowNat(-n) else ShowNat(n)
  }

  lemma {:induction false} DigitsValueOfShowNat(n: nat)
    ensures DigitsValue(ShowNat(n)) == n
  {
    if n >= 10 {
      var s := ShowNat(n);
      assert s[..|s| - 1] == ShowNat(n / 10);
      DigitsValueOfShowNat(n / 10);
    }
  }

  /** A non-negative number prints as digits only, which `int()` reads back. */
  lemma ParseShowNat(n: nat)
    ensures ParseInt(ShowNat(n)) == Some(n)
  {
    DigitsValueOfShowNat(n);
  }

  /** A negative number prints as `-` and its magnitude's digits. */
  lemma ParseShowNegative(n: int)
    requires n < 0
    ensures ParseInt(ShowInt(n)) == Some(n)
  {
    var digits := ShowNat(-n);
    assert ("-" + digits)[1..] == digits;
    DigitsValueOfShowNat(-n);
    ParseMinusDigits("-" + digits);
  }

  /** A minus sign followed by digits reads as the negated digits' value. */
  lemma ParseMinusDigits(s: string)
    requires |s| > 1 && s[0] == '-' && AllDigits(s[1..])
    ensures ParseInt(s) == Some(-(DigitsValue(s[1..]) as int))
  {
  }

  /** `str(n)` is one token: digits and at most a leading `-`. */
  lemma ShowIntIsWord(n: int)
    ensures IsWord(ShowInt(n))
  {
    var s := ShowInt(n);
    if n < 0 {
      assert forall i :: 1 <= i < |s| ==> s[i] == ShowNat(-n)[i - 1];
    }
  }

  /** `int(str(n)) == n`: parsing undoes printing, for every integer. */
  lemma ParseShowInt(n: int)
    ensures IsWord(ShowInt(n))
    ensures ParseInt(ShowInt(n)) == Some(n)
  {
    ShowIntIsWord(n);
    if n < 0 {
      ParseShowNegative(n);
    } else {
      ParseShowNat(n);
    }
  }
}
