/** The string handling the harness borrows from Rust's standard library:
    `char::is_whitespace`, `str::split_whitespace`, `str::trim`, and the
    decimal `FromStr`/`ToString` of `u64` and `isize`. */
module Text {
  import opened Results
  import opened Limits

  /** `char::is_whitespace`: the Unicode White_Space property. */
  predicate IsWhitespace(c: char) {
    var n := c as int;
    || 9 <= n <= 13
    || n == 0x20 || n == 0x85 || n == 0xA0 || n == 0x1680
    || 0x2000 <= n <= 0x200A
    || n == 0x2028 || n == 0x2029 || n == 0x202F || n == 0x205F || n == 0x3000
  }

  predicate NoWhitespace(s: string) {
    forall i :: 0 <= i < |s| ==> !IsWhitespace(s[i])
  }

  predicate AllWhitespace(s: string) {
    forall i :: 0 <= i < |s| ==> IsWhitespace(s[i])
  }

  /** What `split_whitespace` can yield: a non-empty run without whitespace. */
  predicate IsToken(t: string) {
    |t| > 0 && NoWhitespace(t)
  }

  /** Length of the longest whitespace-free prefix of `s`. */
  function TokenLength(s: string): (n: nat)
    ensures n <= |s|
    ensures NoWhitespace(s[..n])
    ensures n < |s| ==> IsWhitespace(s[n])
  {
    if |s| == 0 || IsWhitespace(s[0]) then 0
    else
      var n := 1 + TokenLength(s[1..]);
      assert s[..n] == [s[0]] + s[1..][..n - 1];
      n
  }

  /** `str::split_whitespace`: the maximal whitespace-free runs, in order. */
  function SplitWhitespace(s: string): (toks: seq<string>)
    ensures forall i :: 0 <= i < |toks| ==> IsToken(toks[i])
    decreases |s|
  {
    if |s| == 0 then []
    else if IsWhitespace(s[0]) then SplitWhitespace(s[1..])
    else
      var n := TokenLength(s);
      [s[..n]] + SplitWhitespace(s[n..])
  }

  lemma AllWhitespaceCons(c: char, w: string)
    requires IsWhitespace(c) && AllWhitespace(w)
    ensures AllWhitespace([c] + w)
  {
    var cw := [c] + w;
    forall i | 0 <= i < |cw|
      ensures IsWhitespace(cw[i])
    {
      if i > 0 {
        assert cw[i] == w[i - 1];
      }
    }
  }

  lemma AllWhitespaceSnoc(w: string, c: char)
    requires AllWhitespace(w) && IsWhitespace(c)
    ensures AllWhitespace(w + [c])
  {
    var wc := w + [c];
    forall i | 0 <= i < |wc|
      ensures IsWhitespace(wc[i])
    {
      if i < |w| {
        assert wc[i] == w[i];
      }
    }
  }

  /** `str::trim_start`. */
  function TrimStart(s: string): (t: string)
    ensures |t| <= |s| && t == s[|s| - |t|..]
    ensures AllWhitespace(s[..|s| - |t|])
    ensures |t| == 0 || !IsWhitespace(t[0])
  {
    if |s| > 0 && IsWhitespace(s[0]) then
      var t := TrimStart(s[1..]);
      var n := |s| - |t|;
      assert s[..n] == [s[0]] + s[1..][..n - 1];
      AllWhitespaceCons(s[0], s[1..][..n - 1]);
      t
    else s
  }

  /** `str::trim_end`. */
  function TrimEnd(s: string): (t: string)
    ensures |t| <= |s| && t == s[..|t|]
    ensures AllWhitespace(s[|t|..])
    ensures |t| == 0 || !IsWhitespace(t[|t| - 1])
  {
    if |s| > 0 && IsWhitespace(s[|s| - 1]) then
      var t := TrimEnd(s[..|s| - 1]);
      assert s[|t|..] == s[..|s| - 1][|t|..] + [s[|s| - 1]];
      AllWhitespaceSnoc(s[..|s| - 1][|t|..], s[|s| - 1]);
      t
    else s
  }

  /** `str::trim`: the middle of `s`, with only whitespace cut from either
      end and none left at either end. */
  function Trim(s: string): (t: string)
    ensures exists k :: WhitespaceAround(s, t, k)
    ensures |t| == 0 || (!IsWhitespace(t[0]) && !IsWhitespace(t[|t| - 1]))
  {
    var u := TrimStart(s);
    var t := TrimEnd(u);
    WhitespaceAroundOfParts(s, u, t, |s| - |u|);
    assert |t| > 0 ==> t[0] == u[0];
    t
  }

  /** `t` occurs in `s` at offset `k` with only whitespace before and after it. */
  predicate WhitespaceAround(s: string, t: string, k: int) {
    0 <= k <= |s| - |t| && t == s[k..k + |t|] && AllWhitespace(s[..k]) && AllWhitespace(s[k + |t|..])
  }

  /** Cutting whitespace from the front and then from the back leaves the
      rest with only whitespace around it. */
  lemma WhitespaceAroundOfParts(s: string, u: string, t: string, k: int)
    requires 0 <= k <= |s| && u == s[k..] && AllWhitespace(s[..k])
    requires |t| <= |u| && t == u[..|t|] && AllWhitespace(u[|t|..])
    ensures WhitespaceAround(s, t, k)
  {
    assert s[k + |t|..] == u[|t|..];
  }

  /** Tokens joined by single spaces, the layout of a report's header lines. */
  function JoinSpace(toks: seq<string>): string {
    if |toks| == 0 then ""
    else if |toks| == 1 then toks[0]
    else toks[0] + " " + JoinSpace(toks[1..])
  }

  /** The characters of `s` that are not whitespace, in order. */
  function NonWhitespace(s: string): (r: string)
    ensures NoWhitespace(r)
  {
    if |s| == 0 then ""
    else if IsWhitespace(s[0]) then NonWhitespace(s[1..])
    else [s[0]] + NonWhitespace(s[1..])
  }

  function Concat(toks: seq<string>): string {
    if |toks| == 0 then "" else toks[0] + Concat(toks[1..])
  }

  // ---------------------------------------------------------------------------
  // Properties of splitting and trimming

  /** A whitespace-free prefix followed by whitespace (or nothing) is exactly
      the first token. */
  lemma {:induction false} TokenLengthOfPrefix(t: string, u: string)
    requires NoWhitespace(t)
    requires |u| == 0 || IsWhitespace(u[0])
    ensures TokenLength(t + u) == |t|
    decreases |t|
  {
    if |t| == 0 {
      assert t + u == u;
    } else {
      assert (t + u)[0] == t[0];
      assert (t + u)[1..] == t[1..] + u;
      TokenLengthOfPrefix(t[1..], u);
    }
  }

  lemma NonWhitespaceAppend(a: string, b: string)
    ensures NonWhitespace(a + b) == NonWhitespace(a) + NonWhitespace(b)
  {
    if |a| > 0 {
      assert (a + b)[1..] == a[1..] + b;
      NonWhitespaceAppend(a[1..], b);
    } else {
      assert a + b == b;
    }
  }

  lemma NonWhitespaceOfToken(t: string)
    requires NoWhitespace(t)
    ensures NonWhitespace(t) == t
  {
    if |t| > 0 {
      NonWhitespaceOfToken(t[1..]);
      assert t == [t[0]] + t[1..];
    }
  }

  /** Splitting drops exactly the whitespace: the tokens, concatenated, are
      the non-whitespace characters of the input. */
  lemma {:induction false} SplitWhitespaceKeepsCharacters(s: string)
    ensures Concat(SplitWhitespace(s)) == NonWhitespace(s)
    decreases |s|
  {
    if |s| == 0 {
    } else if IsWhitespace(s[0]) {
      SplitWhitespaceKeepsCharacters(s[1..]);
    } else {
      var n := TokenLength(s);
      SplitWhitespaceKeepsCharacters(s[n..]);
      assert s == s[..n] + s[n..];
      NonWhitespaceAppend(s[..n], s[n..]);
      NonWhitespaceOfToken(s[..n]);
      var toks := SplitWhitespace(s);
      assert toks == [s[..n]] + SplitWhitespace(s[n..]);
      assert toks[1..] == SplitWhitespace(s[n..]);
    }
  }

  /** Joining tokens with spaces and splitting again gives the tokens back. */
  lemma {:induction false} SplitJoinSpace(toks: seq<string>)
    requires forall i :: 0 <= i < |toks| ==> IsToken(toks[i])
    ensures SplitWhitespace(JoinSpace(toks)) == toks
    decreases |toks|
  {
    if |toks| == 1 {
      var t := toks[0];
      TokenLengthOfPrefix(t, "");
      assert t + "" == t;
      assert t[..|t|] == t && t[|t|..] == "";
    } else if |toks| > 1 {
      var t, rest := toks[0], JoinSpace(toks[1..]);
      var s := t + " " + rest;
      assert s == t + (" " + rest);
      TokenLengthOfPrefix(t, " " + rest);
      assert s[..|t|] == t;
      assert s[|t|..] == " " + rest;
      assert (" " + rest)[1..] == rest;
      SplitJoinSpace(toks[1..]);
    }
  }

  /** Leading whitespace does not change the split. */
  lemma {:induction false} SplitWhitespaceSkipsLeading(w: string, s: string)
    requires AllWhitespace(w)
    ensures SplitWhitespace(w + s) == SplitWhitespace(s)
    decreases |w|
  {
    if |w| > 0 {
      assert (w + s)[1..] == w[1..] + s;
      SplitWhitespaceSkipsLeading(w[1..], s);
    } else {
      assert w + s == s;
    }
  }

  /** Trailing whitespace does not change the split. */
  lemma {:induction false} SplitWhitespaceSkipsTrailing(s: string, w: string)
    requires AllWhitespace(w)
    ensures SplitWhitespace(s + w) == SplitWhitespace(s)
    decreases |s|
  {
    if |s| == 0 {
      assert s + w == w;
      SplitWhitespaceSkipsLeading(w, "");
      assert w + "" == w;
    } else if IsWhitespace(s[0]) {
      assert (s + w)[1..] == s[1..] + w;
      SplitWhitespaceSkipsTrailing(s[1..], w);
    } else {
      var n := TokenLength(s);
      if n < |s| {
        assert s == s[..n] + s[n..];
        TokenLengthOfPrefix(s[..n], s[n..] + w);
        assert s + w == s[..n] + (s[n..] + w);
        assert (s + w)[..n] == s[..n];
        assert (s + w)[n..] == s[n..] + w;
        SplitWhitespaceSkipsTrailing(s[n..], w);
      } else {
        TokenLengthOfPrefix(s, w);
        assert (s + w)[..n] == s;
        assert (s + w)[n..] == w;
        assert s[..n] == s && s[n..] == "";
        SplitWhitespaceSkipsLeading(w, "");
        assert w + "" == w;
      }
    }
  }

  lemma SplitWhitespaceIgnoresTrimStart(s: string)
    ensures SplitWhitespace(TrimStart(s)) == SplitWhitespace(s)
  {
    var t := TrimStart(s);
    var w := s[..|s| - |t|];
    assert s == w + t;
    SplitWhitespaceSkipsLeading(w, t);
  }

  lemma SplitWhitespaceIgnoresTrimEnd(s: string)
    ensures SplitWhitespace(TrimEnd(s)) == SplitWhitespace(s)
  {
    var t := TrimEnd(s);
    var w := s[|t|..];
    assert s == t + w;
    SplitWhitespaceSkipsTrailing(t, w);
  }

  /** `trim` before `split_whitespace` changes nothing. */
  lemma SplitWhitespaceIgnoresTrim(s: string)
    ensures SplitWhitespace(Trim(s)) == SplitWhitespace(s)
  {
    SplitWhitespaceIgnoresTrimStart(s);
    SplitWhitespaceIgnoresTrimEnd(TrimStart(s));
  }

  /** A one-pass reference for `split_whitespace`, reading one character at
      a time: `word` is the run being read, `words` the runs already ended
      by whitespace. */
  function ScanWords(s: string, word: string, words: seq<string>): seq<string>
    decreases |s|
  {
    if |s| == 0 then (if |word| == 0 then words else words + [word])
    else if IsWhitespace(s[0]) then ScanWords(s[1..], "", if |word| == 0 then words else words + [word])
    else ScanWords(s[1..], word + [s[0]], words)
  }

  /** A single token splits to itself. */
  lemma SplitToken(t: string)
    requires IsToken(t)
    ensures SplitWhitespace(t) == [t]
  {
    SplitJoinSpace([t]);
  }

  /** Scanning on from a partly read word yields the words so far plus the
      split of the rest. */
  lemma {:induction false} ScanWordsSplits(s: string, word: string, words: seq<string>)
    requires NoWhitespace(word)
    ensures ScanWords(s, word, words) == words + SplitWhitespace(word + s)
    decreases |s|
  {
    if |s| == 0 {
      assert word + s == word;
      if |word| > 0 {
        SplitToken(word);
      }
    } else if IsWhitespace(s[0]) {
      var words' := if |word| == 0 then words else words + [word];
      ScanWordsSplits(s[1..], "", words');
      ScanWordsAtWhitespace(s, word, words);
    } else {
      var word' := word + [s[0]];
      assert NoWhitespace(word') by {
        assert forall i :: 0 <= i < |word| ==> word'[i] == word[i];
      }
      ScanWordsSplits(s[1..], word', words);
      assert word' + s[1..] == word + s;
    }
  }

  /** The whitespace step of `ScanWordsSplits`: whitespace ends the word
      being read, if any. */
  lemma ScanWordsAtWhitespace(s: string, word: string, words: seq<string>)
    requires |s| > 0 && IsWhitespace(s[0]) && NoWhitespace(word)
    requires var words' := if |word| == 0 then words else words + [word];
             ScanWords(s[1..], "", words') == words' + SplitWhitespace("" + s[1..])
    ensures ScanWords(s, word, words) == words + SplitWhitespace(word + s)
  {
    assert "" + s[1..] == s[1..];
    if |word| == 0 {
      ScanWordsAtWhitespaceNoWord(s, word, words);
    } else {
      ScanWordsAtWhitespaceAfterWord(s, word, words);
      SplitAfterToken(word, s);
    }
  }

  /** Whitespace with no word pending is skipped. */
  lemma ScanWordsAtWhitespaceNoWord(s: string, word: string, words: seq<string>)
    requires |s| > 0 && IsWhitespace(s[0]) && |word| == 0
    requires ScanWords(s[1..], "", words) == words + SplitWhitespace(s[1..])
    ensures ScanWords(s, word, words) == words + SplitWhitespace(word + s)
  {
    assert word + s == s;
  }

  /** Whitespace after a pending word closes it. */
  lemma ScanWordsAtWhitespaceAfterWord(s: string, word: string, words: seq<string>)
    requires |s| > 0 && IsWhitespace(s[0]) && |word| > 0 && NoWhitespace(word)
    requires ScanWords(s[1..], "", words + [word]) == words + [word] + SplitWhitespace(s[1..])
    ensures ScanWords(s, word, words) == words + ([word] + SplitWhitespace(s[1..]))
  {
    assert words + [word] + SplitWhitespace(s[1..]) == words + ([word] + SplitWhitespace(s[1..]));
  }

  /** A token followed by whitespace splits off as the first word. */
  lemma SplitAfterToken(word: string, s: string)
    requires IsToken(word) && |s| > 0 && IsWhitespace(s[0])
    ensures SplitWhitespace(word + s) == [word] + SplitWhitespace(s[1..])
  {
    TokenLengthOfPrefix(word, s);
    assert (word + s)[0] == word[0];
    assert (word + s)[..|word|] == word;
    assert (word + s)[|word|..] == s;
  }

  /** `SplitWhitespace` yields exactly the maximal whitespace-free runs: it
      agrees with the one-pass scanner on every string. */
  lemma SplitWhitespaceScans(s: string)
    ensures SplitWhitespace(s) == ScanWords(s, "", [])
  {
    ScanWordsSplits(s, "", []);
    assert "" + s == s;
  }

  // ---------------------------------------------------------------------------
  // Decimal numerals

  predicate IsDigit(c: char) {
    '0' <= c <= '9'
  }

  predicate AllDigits(s: string) {
    forall i :: 0 <= i < |s| ==> IsDigit(s[i])
  }

  predicate AllZeros(ds: string) {
    forall i :: 0 <= i < |ds| ==> ds[i] == '0'
  }

  /** A string of zeros is worth nothing. */
  lemma {:induction false} ZerosValue(zeros: string)
    requires AllZeros(zeros)
    ensures AllDigits(zeros) && DecimalValue(zeros) == 0
    decreases |zeros|
  {
    if |zeros| > 0 {
      ZerosValue(zeros[..|zeros| - 1]);
    }
  }

  /** Zeros in front of a numeral do not change its value. */
  lemma {:induction false} LeadingZerosValue(zeros: string, ds: string)
    requires AllZeros(zeros) && AllDigits(ds)
    ensures AllDigits(zeros + ds) && DecimalValue(zeros + ds) == DecimalValue(ds)
    decreases |ds|
  {
    ZerosValue(zeros);
    var all := zeros + ds;
    assert AllDigits(all) by {
      forall i | 0 <= i < |all| ensures IsDigit(all[i]) {
        if i < |zeros| { assert all[i] == zeros[i]; } else { assert all[i] == ds[i - |zeros|]; }
      }
    }
    if |ds| == 0 {
      assert all == zeros;
    } else {
      var init := ds[..|ds| - 1];
      assert all[..|all| - 1] == zeros + init && all[|all| - 1] == ds[|ds| - 1];
      LeadingZerosValue(zeros, init);
    }
  }

  /** The value of a string of decimal digits, most significant first. */
  function DecimalValue(ds: string): nat
    requires AllDigits(ds)
  {
    if |ds| == 0 then 0
    else 10 * DecimalValue(ds[..|ds| - 1]) + (ds[|ds| - 1] as int - '0' as int)
  }

  function DigitChar(d: nat): (c: char)
    requires d < 10
    ensures IsDigit(c) && c as int - '0' as int == d
  {
    ('0' as int + d) as char
  }

  /** `u64::to_string` / `isize::to_string` of a non-negative value: the
      shortest decimal numeral. */
  function NatToDecimal(n: nat): (ds: string)
    ensures |ds| > 0 && AllDigits(ds)
    ensures |ds| > 1 ==> ds[0] != '0'
  {
    if n < 10 then [DigitChar(n)]
    else NatToDecimal(n / 10) + [DigitChar(n % 10)]
  }

  /** Rendering a number in decimal and reading it back gives the number. */
  lemma {:induction false} DecimalRoundTrip(n: nat)
    ensures DecimalValue(NatToDecimal(n)) == n
  {
    if n >= 10 {
      var ds := NatToDecimal(n);
      assert ds[..|ds| - 1] == NatToDecimal(n / 10);
      DecimalRoundTrip(n / 10);
    }
  }

  /** A numeral in canonical form (no leading zero) is the rendering of its value. */
  lemma {:induction false} CanonicalDecimal(ds: string)
    requires |ds| > 0 && AllDigits(ds)
    requires |ds| > 1 ==> ds[0] != '0'
    ensures NatToDecimal(DecimalValue(ds)) == ds
    decreases |ds|
  {
    var v := DecimalValue(ds);
    var d := ds[|ds| - 1] as int - '0' as int;
    if |ds| == 1 {
      assert ds[..0] == "";
      assert DecimalValue(ds[..0]) == 0;
      assert v == d;
      assert [DigitChar(d)] == ds;
    } else {
      var init := ds[..|ds| - 1];
      assert init[0] == ds[0];
      CanonicalDecimal(init);
      DecimalPositive(init);
      assert v / 10 == DecimalValue(init) && v % 10 == d;
      assert ds == init + [ds[|ds| - 1]];
    }
  }

  /** A numeral that does not start with '0' has a value of at least one. */
  lemma {:induction false} DecimalPositive(ds: string)
    requires |ds| > 0 && AllDigits(ds) && ds[0] != '0'
    ensures DecimalValue(ds) > 0
    decreases |ds|
  {
    if |ds| > 1 {
      var init := ds[..|ds| - 1];
      assert init[0] == ds[0];
      DecimalPositive(init);
    }
  }

  /** A token without its leading `+`, if it has one. */
  function WithoutPlus(tok: string): (ds: string)
    ensures |tok| > 0 && tok[0] == '+' ==> ds == tok[1..]
    ensures !(|tok| > 0 && tok[0] == '+') ==> ds == tok
  {
    if |tok| > 0 && tok[0] == '+' then tok[1..] else tok
  }

  /** A token without its leading `+` or `-`, if it has one. */
  function WithoutSign(tok: string): (ds: string)
    ensures |tok| > 0 && (tok[0] == '+' || tok[0] == '-') ==> ds == tok[1..]
    ensures !(|tok| > 0 && (tok[0] == '+' || tok[0] == '-')) ==> ds == tok
  {
    if |tok| > 0 && (tok[0] == '+' || tok[0] == '-') then tok[1..] else tok
  }

  /** `str::parse::<u64>`: an optional `+`, then at least one decimal digit,
      with a value that fits in 64 bits; a numeral of 2^64 or more is an
      error, not a wrapped value. */
  function ParseU64(tok: string): (r: Option<int>)
    ensures r.Some? ==> 0 <= r.value < U64_LIMIT
    ensures r.Some? ==> |tok| > 0 && (IsDigit(tok[0]) || tok[0] == '+')
                        && forall i :: 0 < i < |tok| ==> IsDigit(tok[i])
  {
    var digits := WithoutPlus(tok);
    if |digits| == 0 || !AllDigits(digits) then None
    else
      var v := DecimalValue(digits);
      if v < U64_LIMIT then Some(v) else None
  }

  /** Every `u64` survives `to_string` followed by `parse`, with or without a `+`. */
  lemma ParseU64RoundTrip(n: nat)
    requires n < U64_LIMIT
    ensures ParseU64(NatToDecimal(n)) == Some(n)
    ensures ParseU64("+" + NatToDecimal(n)) == Some(n)
  {
    DecimalRoundTrip(n);
    assert ("+" + NatToDecimal(n))[1..] == NatToDecimal(n);
  }

  /** Exactly the tokens that are an optional `+` and a numeral below 2^64
      parse, and they parse as the numeral's value. */
  lemma ParseU64Meaning(tok: string)
    ensures ParseU64(tok).Some? <==> var ds := WithoutPlus(tok);
                                     |ds| > 0 && AllDigits(ds) && DecimalValue(ds) < U64_LIMIT
    ensures ParseU64(tok).Some? ==> ParseU64(tok).value == DecimalValue(WithoutPlus(tok))
  {
  }

  /** The `to_string` of a number of 2^64 or more does not parse as a `u64`,
      with or without a `+`. */
  lemma ParseU64RejectsOverflow(n: nat)
    requires n >= U64_LIMIT
    ensures ParseU64(NatToDecimal(n)) == None
    ensures ParseU64("+" + NatToDecimal(n)) == None
  {
    DecimalRoundTrip(n);
    assert ("+" + NatToDecimal(n))[1..] == NatToDecimal(n);
  }

  /** Leading zeros, and a leading `+`, do not change the parsed value:
      `"007"` and `"+007"` are 7. */
  lemma ParseU64LeadingZeros(zeros: string, n: nat)
    requires AllZeros(zeros) && n < U64_LIMIT
    ensures ParseU64(zeros + NatToDecimal(n)) == Some(n)
    ensures ParseU64("+" + zeros + NatToDecimal(n)) == Some(n)
  {
    var ds := NatToDecimal(n);
    DecimalRoundTrip(n);
    LeadingZerosValue(zeros, ds);
    assert "+" + zeros + ds == "+" + (zeros + ds);
    ParseU64OfDigits(zeros + ds);
  }

  /** A digit string parses as its value, with or without a `+`, when that
      value fits. */
  lemma ParseU64OfDigits(ds: string)
    requires |ds| > 0 && AllDigits(ds) && DecimalValue(ds) < U64_LIMIT
    ensures ParseU64(ds) == Some(DecimalValue(ds))
    ensures ParseU64("+" + ds) == Some(DecimalValue(ds))
  {
    assert IsDigit(ds[0]);
    assert ("+" + ds)[1..] == ds;
  }

  /** A token with a character other than a digit (past an optional leading
      `+`) is rejected. */
  lemma ParseU64RejectsNonDigit(tok: string, i: nat)
    requires i < |tok| && !IsDigit(tok[i]) && !(i == 0 && tok[0] == '+')
    ensures ParseU64(tok) == None
  {
  }

  /** `str::parse::<isize>` on a 64-bit target: an optional sign, then at
      least one decimal digit, with a value in the `isize` range. */
  function ParseIsize(tok: string): (r: Option<int>)
    ensures r.Some? ==> ISIZE_MIN <= r.value <= ISIZE_MAX
    ensures r.Some? ==> |tok| > 0 && (IsDigit(tok[0]) || tok[0] == '+' || tok[0] == '-')
                        && forall i :: 0 < i < |tok| ==> IsDigit(tok[i])
    ensures r.Some? && r.value < 0 ==> tok[0] == '-'
  {
    var digits := WithoutSign(tok);
    if |digits| == 0 || !AllDigits(digits) then None
    else
      var magnitude: int := DecimalValue(digits);
      var v: int := if tok[0] == '-' then -magnitude else magnitude;
      if ISIZE_MIN <= v <= ISIZE_MAX then Some(v) else None
  }

  /** The value a signed numeral denotes: its magnitude, negated after a `-`. */
  function SignedValue(tok: string): int
    requires AllDigits(WithoutSign(tok))
  {
    var magnitude: int := DecimalValue(WithoutSign(tok));
    if |tok| > 0 && tok[0] == '-' then -magnitude else magnitude
  }

  /** Exactly the tokens that are an optional sign and a numeral whose signed
      value is in the `isize` range parse, and they parse as that value. */
  lemma ParseIsizeMeaning(tok: string)
    ensures ParseIsize(tok).Some? <==> var ds := WithoutSign(tok);
                                       |ds| > 0 && AllDigits(ds) && ISIZE_MIN <= SignedValue(tok) <= ISIZE_MAX
    ensures ParseIsize(tok).Some? ==> ParseIsize(tok).value == SignedValue(tok)
  {
  }

  /** `isize::to_string`. */
  function IntToDecimal(i: int): string {
    if i < 0 then "-" + NatToDecimal(-i) else NatToDecimal(i)
  }

  /** Every `isize` survives `to_string` followed by `parse`. */
  lemma ParseIsizeRoundTrip(i: int)
    requires ISIZE_MIN <= i <= ISIZE_MAX
    ensures ParseIsize(IntToDecimal(i)) == Some(i)
  {
    if i < 0 {
      var ds := NatToDecimal(-i);
      DecimalRoundTrip(-i);
      var tok := "-" + ds;
      assert tok[0] == '-' && tok[1..] == ds;
      var magnitude: int := DecimalValue(ds);
      assert ParseIsize(tok) == Some(-magnitude);
    } else {
      var ds := NatToDecimal(i);
      DecimalRoundTrip(i);
      assert IsDigit(ds[0]);
      assert ParseIsize(ds) == Some(DecimalValue(ds));
    }
  }

  /** The `to_string` of an integer outside the `isize` range does not parse. */
  lemma ParseIsizeRejectsOutOfRange(i: int)
    requires i < ISIZE_MIN || i > ISIZE_MAX
    ensures ParseIsize(IntToDecimal(i)) == None
  {
    if i < 0 {
      var ds := NatToDecimal(-i);
      DecimalRoundTrip(-i);
      var tok := "-" + ds;
      assert tok[0] == '-' && WithoutSign(tok) == tok[1..] == ds;
    } else {
      var ds := NatToDecimal(i);
      DecimalRoundTrip(i);
      assert IsDigit(ds[0]) && WithoutSign(ds) == ds;
    }
  }

  /** Signs and leading zeros in front of a magnitude: `"+0"` and `"-0"`
      are 0, `"007"` is 7, and `"-007"` is -7. */
  lemma ParseIsizeLeadingZeros(zeros: string, n: nat)
    requires AllZeros(zeros) && n <= ISIZE_MAX
    ensures ParseIsize(zeros + NatToDecimal(n)) == Some(n)
    ensures ParseIsize("+" + zeros + NatToDecimal(n)) == Some(n)
    ensures ParseIsize("-" + zeros + NatToDecimal(n)) == Some(-(n as int))
  {
    var ds := NatToDecimal(n);
    DecimalRoundTrip(n);
    LeadingZerosValue(zeros, ds);
    assert "+" + zeros + ds == "+" + (zeros + ds);
    assert "-" + zeros + ds == "-" + (zeros + ds);
    ParseIsizeOfDigits(zeros + ds);
  }

  /** A digit string parses as its value, and with a sign in front as the
      signed value, when that value is in range. */
  lemma ParseIsizeOfDigits(ds: string)
    requires |ds| > 0 && AllDigits(ds) && DecimalValue(ds) <= ISIZE_MAX
    ensures ParseIsize(ds) == Some(DecimalValue(ds))
    ensures ParseIsize("+" + ds) == Some(DecimalValue(ds))
    ensures ParseIsize("-" + ds) == Some(-(DecimalValue(ds) as int))
  {
    assert IsDigit(ds[0]) && WithoutSign(ds) == ds;
    var plus, minus := "+" + ds, "-" + ds;
    assert plus[1..] == ds && minus[1..] == ds;
    ParseIsizeSigned(plus);
    ParseIsizeSigned(minus);
  }

  /** A sign followed by a numeral whose magnitude fits. */
  lemma ParseIsizeSigned(tok: string)
    requires |tok| > 1 && (tok[0] == '+' || tok[0] == '-')
    requires AllDigits(tok[1..]) && DecimalValue(tok[1..]) <= ISIZE_MAX
    ensures ParseIsize(tok) == Some(if tok[0] == '-' then -(DecimalValue(tok[1..]) as int) else DecimalValue(tok[1..]))
  {
    assert WithoutSign(tok) == tok[1..];
  }

}
