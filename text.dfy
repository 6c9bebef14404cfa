/** The handful of Go library text functions the video core relies on
    (strings.Split, strings.TrimSpace, strings.Contains, strings.Fields,
    strconv.Itoa, fmt's %03d, strconv.Atoi and filepath.Base), stated over
    sequences of characters. */
module Text {
  import opened Errors

  /** unicode.IsSpace: the ASCII spaces '\t', '\n', '\v', '\f', '\r' and ' ',
      and the White_Space code points beyond ASCII. */
  predicate IsSpace(c: char) {
    c == ' ' || ('\t' <= c <= '\r') || ('\U{85}' <= c && WideSpace(c))
  }

  /** The White_Space code points from U+0085 up. */
  predicate WideSpace(c: char) {
    || c == '\U{85}' || c == '\U{A0}' || c == '\U{1680}' || ('\U{2000}' <= c <= '\U{200A}')
    || c == '\U{2028}' || c == '\U{2029}' || c == '\U{202F}' || c == '\U{205F}' || c == '\U{3000}'
  }

  predicate NoSpace(s: string) {
    forall k :: 0 <= k < |s| ==> !IsSpace(s[k])
  }

  predicate AllSpace(s: string) {
    forall k :: 0 <= k < |s| ==> IsSpace(s[k])
  }

  /** True when s neither starts nor ends with a space: what TrimSpace leaves. */
  predicate Trimmed(s: string) {
    s == [] || (!IsSpace(s[0]) && !IsSpace(s[|s| - 1]))
  }

  // ---------------------------------------------------------------- TrimSpace

  function TrimLeft(s: string): (r: string)
    ensures |r| <= |s| && r == s[|s| - |r|..]
    ensures AllSpace(s[..|s| - |r|])
    ensures r == [] || !IsSpace(r[0])
  {
    if s != [] && IsSpace(s[0]) then
      var r := TrimLeft(s[1..]);
      assert s[..|s| - |r|] == [s[0]] + s[1..][..|s| - 1 - |r|];
      r
    else s
  }

  function TrimRight(s: string): (r: string)
    ensures |r| <= |s| && r == s[..|r|]
    ensures AllSpace(s[|r|..])
    ensures r == [] || !IsSpace(r[|r| - 1])
  {
    if s != [] && IsSpace(s[|s| - 1]) then
      var r := TrimRight(s[..|s| - 1]);
      assert s[|r|..] == s[..|s| - 1][|r|..] + [s[|s| - 1]];
      r
    else s
  }

  /** strings.TrimSpace: drops leading and trailing white space. */
  function TrimSpace(s: string): (r: string)
    ensures |r| <= |s| && Trimmed(r)
  {
    var t := TrimLeft(s);
    var r := TrimRight(t);
    assert r != [] ==> r[0] == t[0];
    r
  }

  lemma {:induction false} TrimLeftPadded(a: string, x: string)
    requires AllSpace(a) && (x == [] || !IsSpace(x[0]))
    ensures TrimLeft(a + x) == x
    decreases |a|
  {
    if a != [] {
      assert (a + x)[1..] == a[1..] + x;
      TrimLeftPadded(a[1..], x);
    } else {
      assert a + x == x;
    }
  }

  lemma {:induction false} TrimRightPadded(x: string, b: string)
    requires AllSpace(b) && (x == [] || !IsSpace(x[|x| - 1]))
    ensures TrimRight(x + b) == x
    decreases |b|
  {
    if b != [] {
      assert (x + b)[..|x + b| - 1] == x + b[..|b| - 1];
      TrimRightPadded(x, b[..|b| - 1]);
    } else {
      assert x + b == x;
    }
  }

  /** TrimSpace gives back exactly the text between surrounding white space. */
  lemma TrimSpacePadded(a: string, x: string, b: string)
    requires AllSpace(a) && AllSpace(b) && Trimmed(x)
    ensures TrimSpace(a + x + b) == x
  {
    if x == [] {
      assert a + x + b == a + b;
      TrimLeftPadded(a + b, []);
      assert a + b + [] == a + b;
    } else {
      assert a + x + b == a + (x + b);
      TrimLeftPadded(a, x + b);
      TrimRightPadded(x, b);
    }
  }

  // ---------------------------------------------------------------- Split

  /** Inverse of Split: the parts glued back with the separator. */
  function Join(parts: seq<string>, sep: char): string
    decreases |parts|
  {
    if parts == [] then "" else if |parts| == 1 then parts[0] else parts[0] + [sep] + Join(parts[1..], sep)
  }

  /** strings.Split with a one-character separator: never empty, no part holds
      the separator, and joining the parts gives back the input. */
  function Split(s: string, sep: char): (r: seq<string>)
    ensures |r| >= 1
    ensures forall k :: 0 <= k < |r| ==> sep !in r[k]
    ensures Join(r, sep) == s
    decreases |s|
  {
    if s == [] then [""]
    else
      var rest := Split(s[1..], sep);
      if s[0] == sep then
        assert Join([""] + rest, sep) == [sep] + Join(rest, sep) by {
          assert ([""] + rest)[1..] == rest;
        }
        [""] + rest
      else
        var r := [[s[0]] + rest[0]] + rest[1..];
        assert r[1..] == rest[1..];
        assert Join(r, sep) == [s[0]] + Join(rest, sep);
        r
  }

  lemma {:induction false} SplitWithoutSeparator(a: string, sep: char)
    requires sep !in a
    ensures Split(a, sep) == [a]
    decreases |a|
  {
    if a != [] {
      SplitWithoutSeparator(a[1..], sep);
      assert [a[0]] + a[1..] == a;
    }
  }

  lemma {:induction false} SplitAtSeparator(a: string, b: string, sep: char)
    requires sep !in a
    ensures Split(a + [sep] + b, sep) == [a] + Split(b, sep)
    decreases |a|
  {
    var s := a + [sep] + b;
    if a == [] {
      assert s[1..] == b;
    } else {
      assert s[1..] == a[1..] + [sep] + b;
      SplitAtSeparator(a[1..], b, sep);
      assert [a[0]] + a[1..] == a;
    }
  }

  /** Split undoes Join when no part holds the separator. */
  lemma {:induction false} SplitJoin(parts: seq<string>, sep: char)
    requires |parts| >= 1
    requires forall k :: 0 <= k < |parts| ==> sep !in parts[k]
    ensures Split(Join(parts, sep), sep) == parts
    decreases |parts|
  {
    if |parts| == 1 {
      SplitWithoutSeparator(parts[0], sep);
    } else {
      SplitJoin(parts[1..], sep);
      SplitAtSeparator(parts[0], Join(parts[1..], sep), sep);
      assert [parts[0]] + parts[1..] == parts;
    }
  }

  lemma {:induction false} JoinAppend(xs: seq<string>, y: string, sep: char)
    requires |xs| >= 1
    ensures Join(xs + [y], sep) == Join(xs, sep) + [sep] + y
    decreases |xs|
  {
    if |xs| > 1 {
      assert (xs + [y])[1..] == xs[1..] + [y];
      JoinAppend(xs[1..], y, sep);
    }
  }

  /** Each line followed by a newline, as a text file is written. */
  function Lines(xs: seq<string>): string
  {
    if xs == [] then "" else Lines(xs[..|xs| - 1]) + xs[|xs| - 1] + "\n"
  }

  lemma LinesSnoc(xs: seq<string>, x: string)
    ensures Lines(xs + [x]) == Lines(xs) + x + "\n"
  {
    assert (xs + [x])[..|xs|] == xs;
  }

  lemma {:induction false} LinesAsJoin(xs: seq<string>)
    ensures Lines(xs) == Join(xs + [""], '\n')
    decreases |xs|
  {
    if xs != [] {
      var ys, y := xs[..|xs| - 1], xs[|xs| - 1];
      assert xs == ys + [y];
      LinesAsJoin(ys);
      JoinAppend(ys + [y], "", '\n');
      if ys != [] {
        JoinAppend(ys, y, '\n');
        JoinAppend(ys, "", '\n');
      }
    }
  }

  /** Splitting newline-terminated lines at '\n' gives the lines back, plus the
      empty text after the final newline. */
  lemma SplitLines(xs: seq<string>)
    requires forall k :: 0 <= k < |xs| ==> '\n' !in xs[k]
    ensures Split(Lines(xs), '\n') == xs + [""]
  {
    LinesAsJoin(xs);
    SplitJoin(xs + [""], '\n');
  }

  // ---------------------------------------------------------------- Contains

  /** strings.Contains: sub occurs somewhere in s. */
  predicate Contains(s: string, sub: string) {
    exists i :: 0 <= i <= |s| && OccursAt(s, sub, i)
  }

  predicate OccursAt(s: string, sub: string, i: nat) {
    i + |sub| <= |s| && s[i..i + |sub|] == sub
  }

  // ---------------------------------------------------------------- Fields

  /** The longest prefix of s without white space. */
  function Word(s: string): (w: string)
    ensures |w| <= |s| && w == s[..|w|] && NoSpace(w)
    ensures |w| == |s| || IsSpace(s[|w|])
    ensures s != [] && !IsSpace(s[0]) ==> |w| >= 1
  {
    if s == [] || IsSpace(s[0]) then [] else [s[0]] + Word(s[1..])
  }

  /** strings.Fields: the maximal runs of non-space characters, in order. */
  function Fields(s: string): seq<string>
    decreases |s|
  {
    var t := TrimLeft(s);
    if t == [] then []
    else
      var w := Word(t);
      [w] + Fields(t[|w|..])
  }

  /** Every field is a nonempty run of non-space characters. */
  lemma {:induction false} FieldsAreWords(s: string)
    ensures forall k :: 0 <= k < |Fields(s)| ==> Fields(s)[k] != [] && NoSpace(Fields(s)[k])
    decreases |s|
  {
    var t := TrimLeft(s);
    if t != [] {
      var w := Word(t);
      var rest := Fields(t[|w|..]);
      FieldsAreWords(t[|w|..]);
      var r := Fields(s);
      assert r == [w] + rest;
      forall k | 0 <= k < |r|
        ensures r[k] != [] && NoSpace(r[k])
      {
        if k > 0 {
          assert r[k] == rest[k - 1];
        }
      }
    }
  }

  /** Words laid out between white-space gaps: gaps[0] + words[0] + gaps[1]
      + ... + words[n-1] + gaps[n]. */
  function Spaced(gaps: seq<string>, words: seq<string>): string
    requires |gaps| == |words| + 1
    decreases |words|
  {
    if words == [] then gaps[0] else gaps[0] + words[0] + Spaced(gaps[1..], words[1..])
  }

  /** A field as strings.Fields returns it: a non-empty run without white
      space. */
  predicate IsWord(w: string) {
    w != [] && NoSpace(w)
  }

  predicate AllWords(words: seq<string>) {
    forall k :: 0 <= k < |words| ==> IsWord(words[k])
  }

  /** Gaps for n words: all white space, and non-empty between two words. */
  predicate Gaps(gaps: seq<string>, n: nat) {
    && |gaps| == n + 1
    && (forall k :: 0 <= k < |gaps| ==> AllSpace(gaps[k]))
    && (forall k :: 0 < k < n ==> gaps[k] != [])
  }

  lemma GapsTail(gaps: seq<string>, n: nat)
    requires n > 0 && Gaps(gaps, n)
    ensures Gaps(gaps[1..], n - 1) && AllSpace(gaps[0])
    ensures n > 1 ==> gaps[1..][0] != []
  {
    var gs := gaps[1..];
    assert forall k :: 0 <= k < |gs| ==> gs[k] == gaps[k + 1];
  }

  lemma AllWordsTail(words: seq<string>)
    requires words != [] && AllWords(words)
    ensures AllWords(words[1..]) && IsWord(words[0])
  {
    var ws := words[1..];
    assert forall k :: 0 <= k < |ws| ==> ws[k] == words[k + 1];
  }

  /** Fields splits at every gap and nowhere else: a text made of non-empty
      words separated by non-empty runs of white space, with optional white
      space at either end, has exactly those words as its fields. */
  lemma {:induction false} FieldsOfSpaced(gaps: seq<string>, words: seq<string>)
    requires Gaps(gaps, |words|) && AllWords(words)
    ensures Fields(Spaced(gaps, words)) == words
    decreases |words|
  {
    if words == [] {
      assert AllSpace(gaps[0]);
      TrimLeftPadded(gaps[0], []);
      assert gaps[0] + [] == gaps[0];
    } else {
      var gs, ws := gaps[1..], words[1..];
      GapsTail(gaps, |words|);
      AllWordsTail(words);
      SpacedStart(gs, ws);
      FieldsOfSpaced(gs, ws);
      FieldsCons(Spaced(gaps, words), gaps[0], words[0], Spaced(gs, ws), ws);
      assert words == [words[0]] + ws;
    }
  }

  /** A gap, a word and a rest that starts with white space: the fields are
      the word followed by the rest's fields. */
  lemma FieldsCons(s: string, pad: string, w: string, rest: string, ws: seq<string>)
    requires s == pad + w + rest
    requires AllSpace(pad) && IsWord(w) && (rest == [] || IsSpace(rest[0]))
    requires Fields(rest) == ws
    ensures Fields(s) == [w] + ws
  {
    FieldsStep(pad, w, rest);
  }

  /** Laid-out words start with their first gap, which is white space and,
      when a word follows, not empty. */
  lemma SpacedStart(gaps: seq<string>, words: seq<string>)
    requires |gaps| == |words| + 1 && AllSpace(gaps[0]) && (words != [] ==> gaps[0] != [])
    ensures var t := Spaced(gaps, words); t == [] || IsSpace(t[0])
  {
    if words != [] {
      assert Spaced(gaps, words) == gaps[0] + words[0] + Spaced(gaps[1..], words[1..]);
    }
  }

  /** One step of Fields: leading white space, then a word ended by white
      space or by the end of the text. */
  lemma FieldsStep(pad: string, w: string, rest: string)
    requires AllSpace(pad) && w != [] && NoSpace(w) && (rest == [] || IsSpace(rest[0]))
    ensures Fields(pad + w + rest) == [w] + Fields(rest)
  {
    assert pad + w + rest == pad + (w + rest);
    TrimLeftPadded(pad, w + rest);
    WordBeforeSpace(w, rest);
    assert (w + rest)[|w|..] == rest;
  }

  lemma {:induction false} WordBeforeSpace(w: string, rest: string)
    requires NoSpace(w) && (rest == [] || IsSpace(rest[0]))
    ensures Word(w + rest) == w
    decreases |w|
  {
    if w == [] {
      assert w + rest == rest;
    } else {
      assert (w + rest)[1..] == w[1..] + rest;
      WordBeforeSpace(w[1..], rest);
    }
  }

  /** The characters of s that are not white space. */
  function Visible(s: string): string
  {
    if s == [] then [] else (if IsSpace(s[0]) then [] else [s[0]]) + Visible(s[1..])
  }

  function Concat(ws: seq<string>): string
  {
    if ws == [] then [] else ws[0] + Concat(ws[1..])
  }

  lemma {:induction false} VisibleAppend(a: string, b: string)
    ensures Visible(a + b) == Visible(a) + Visible(b)
    decreases |a|
  {
    if a != [] {
      assert (a + b)[1..] == a[1..] + b;
      VisibleAppend(a[1..], b);
    } else {
      assert a + b == b;
    }
  }

  lemma {:induction false} VisibleOfSpaces(a: string)
    requires AllSpace(a)
    ensures Visible(a) == []
    decreases |a|
  {
    if a != [] { VisibleOfSpaces(a[1..]); }
  }

  lemma {:induction false} VisibleOfWord(w: string)
    requires NoSpace(w)
    ensures Visible(w) == w
    decreases |w|
  {
    if w != [] { VisibleOfWord(w[1..]); }
  }

  /** Fields loses only white space: its fields, run together, are the
      visible characters of the input. */
  lemma {:induction false} FieldsKeepVisible(s: string)
    ensures Concat(Fields(s)) == Visible(s)
    decreases |s|
  {
    var t := TrimLeft(s);
    VisibleAfterTrim(s);
    if t != [] {
      var w := Word(t);
      VisibleAfterWord(t);
      FieldsKeepVisible(t[|w|..]);
      var r := Fields(s);
      assert r == [w] + Fields(t[|w|..]);
      assert r[1..] == Fields(t[|w|..]);
    }
  }

  lemma VisibleAfterTrim(s: string)
    ensures Visible(s) == Visible(TrimLeft(s))
  {
    var t := TrimLeft(s);
    assert s == s[..|s| - |t|] + t;
    VisibleAppend(s[..|s| - |t|], t);
    VisibleOfSpaces(s[..|s| - |t|]);
  }

  lemma VisibleAfterWord(t: string)
    ensures Visible(t) == Word(t) + Visible(t[|Word(t)|..])
  {
    var w := Word(t);
    assert t == w + t[|w|..];
    VisibleAppend(w, t[|w|..]);
    VisibleOfWord(w);
  }

  // ---------------------------------------------------------------- numbers

  predicate IsDigit(c: char) {
    '0' <= c <= '9'
  }

  predicate AllDigits(s: string) {
    forall k :: 0 <= k < |s| ==> IsDigit(s[k])
  }

  function DigitChar(d: nat): (c: char)
    requires d < 10
    ensures IsDigit(c) && c as int - '0' as int == d
  {
    ('0' as int + d) as char
  }

  /** The number a string of decimal digits denotes (leading zeros allowed). */
  function DigitsValue(s: string): nat
    requires AllDigits(s)
    decreases |s|
  {
    if s == [] then 0 else DigitsValue(s[..|s| - 1]) * 10 + (s[|s| - 1] as int - '0' as int)
  }

  function Pow10(k: nat): nat
  {
    if k == 0 then 1 else 10 * Pow10(k - 1)
  }

  lemma {:induction false} DigitsValueBound(s: string)
    requires AllDigits(s)
    ensures DigitsValue(s) < Pow10(|s|)
    decreases |s|
  {
    if s != [] { DigitsValueBound(s[..|s| - 1]); }
  }

  function Zeros(k: nat): (z: string)
    ensures |z| == k && AllDigits(z)
  {
    seq(k, _ => '0')
  }

  lemma {:induction false} LeadingZeros(k: nat, d: string)
    requires AllDigits(d)
    ensures AllDigits(Zeros(k) + d) && DigitsValue(Zeros(k) + d) == DigitsValue(d)
    decreases |d|
  {
    var s := Zeros(k) + d;
    assert AllDigits(s) by {
      forall i | 0 <= i < |s| ensures IsDigit(s[i]) {
        if i < k { assert s[i] == '0'; } else { assert s[i] == d[i - k]; }
      }
    }
    if d == [] {
      ZerosValue(k);
      assert s == Zeros(k);
    } else {
      assert s[..|s| - 1] == Zeros(k) + d[..|d| - 1];
      LeadingZeros(k, d[..|d| - 1]);
    }
  }

  lemma {:induction false} ZerosValue(k: nat)
    ensures DigitsValue(Zeros(k)) == 0
    decreases k
  {
    if k > 0 {
      assert Zeros(k)[..k - 1] == Zeros(k - 1);
      ZerosValue(k - 1);
    }
  }

  /** strconv.Itoa (fmt's %d) of a non-negative number. */
  function Decimal(n: nat): string
  {
    if n < 10 then [DigitChar(n)] else Decimal(n / 10) + [DigitChar(n % 10)]
  }

  /** Decimal writes digits only, with no superfluous leading zero, and they
      denote n. */
  lemma {:induction false} DecimalDigits(n: nat)
    ensures var r := Decimal(n);
      |r| >= 1 && AllDigits(r) && DigitsValue(r) == n && (r[0] == '0' ==> n == 0)
  {
    if n >= 10 {
      DecimalDigits(n / 10);
      var r := Decimal(n);
      assert r[..|r| - 1] == Decimal(n / 10);
    }
  }

  /** fmt's %03d of a non-negative number: padded on the left with zeros to at
      least three digits. */
  function Pad3(n: nat): string
  {
    var d := Decimal(n);
    if |d| < 3 then Zeros(3 - |d|) + d else d
  }

  /** Pad3 writes at least three digits denoting n: exactly three below 100,
      and exactly Decimal(n) once n has three digits. */
  lemma Pad3Digits(n: nat)
    ensures var r := Pad3(n);
      && |r| >= 3 && AllDigits(r) && DigitsValue(r) == n
      && (n < 100 ==> |r| == 3)
      && (n >= 100 ==> r == Decimal(n))
  {
    var d := Decimal(n);
    DecimalDigits(n);
    DigitsValueBound(d);
    if n < 100 {
      assert |d| <= 2 by {
        if n >= 10 { assert d == Decimal(n / 10) + [DigitChar(n % 10)]; }
      }
    }
    if |d| < 3 {
      LeadingZeros(3 - |d|, d);
      assert Pow10(|d|) <= 100 by {
        assert Pow10(0) == 1 && Pow10(1) == 10 && Pow10(2) == 100;
      }
    } else {
      assert 100 <= Pow10(|d|) by {
        assert Pow10(|d|) == 10 * Pow10(|d| - 1) == 100 * Pow10(|d| - 2);
        assert Pow10(2) == 100;
        assert Pow10(|d| - 2) >= 1 by { Pow10Positive(|d| - 2); }
      }
    }
  }

  lemma {:induction false} Pow10Positive(k: nat)
    ensures Pow10(k) >= 1
  {
    if k > 0 { Pow10Positive(k - 1); }
  }

  const MinInt64: int := -0x8000_0000_0000_0000
  const MaxInt64: int := 0x7FFF_FFFF_FFFF_FFFF

  /** The syntax Atoi accepts: a character string in which every character
      is a decimal digit, except that the first may be '+' or '-', and at
      least one is a digit. */
  predicate Numeral(s: string) {
    && |s| >= 1
    && (forall k :: 0 <= k < |s| ==> IsDigit(s[k]) || (k == 0 && (s[0] == '+' || s[0] == '-')))
    && exists k :: 0 <= k < |s| && IsDigit(s[k])
  }

  /** The integer a numeral denotes. */
  function NumeralValue(s: string): int
    requires Numeral(s)
  {
    if s[0] == '-' then -(DigitsValue(s[1..]) as int)
    else if s[0] == '+' then DigitsValue(s[1..])
    else DigitsValue(s)
  }

  /** strconv.Atoi on a 64-bit platform: an optional sign and one or more
      decimal digits whose value fits in an int64; anything else fails. */
  function ParseInt(s: string): (r: Option<int>)
    ensures r.Some? <==> Numeral(s) && MinInt64 <= NumeralValue(s) <= MaxInt64
    ensures r.Some? ==> r.value == NumeralValue(s)
    ensures r.Some? ==> MinInt64 <= r.value <= MaxInt64
    ensures r.Some? ==> s != [] && !IsSpace(s[0]) && !IsSpace(s[|s| - 1])
  {
    NumeralShape(s);
    var signed := |s| > 0 && (s[0] == '+' || s[0] == '-');
    var digits := if signed then s[1..] else s;
    if digits == [] || !AllDigits(digits) then None
    else
      assert IsDigit(s[|s| - 1]) by { assert s[|s| - 1] == digits[|digits| - 1]; }
      var magnitude: int := DigitsValue(digits);
      var v := if signed && s[0] == '-' then -magnitude else magnitude;
      if MinInt64 <= v <= MaxInt64 then Some(v) else None
  }

  /** A numeral is a sign followed by a non-empty run of digits, or such a
      run alone. */
  lemma NumeralShape(s: string)
    ensures Numeral(s) <==>
      |s| > 0 && var digits := if s[0] == '+' || s[0] == '-' then s[1..] else s;
      digits != [] && AllDigits(digits)
  {
    if |s| > 0 {
      var digits := if s[0] == '+' || s[0] == '-' then s[1..] else s;
      if digits != [] && AllDigits(digits) {
        assert IsDigit(s[|s| - 1]) by { assert s[|s| - 1] == digits[|digits| - 1]; }
        assert forall k :: 0 <= k < |s| ==> IsDigit(s[k]) || (k == 0 && (s[0] == '+' || s[0] == '-')) by {
          forall k | 0 <= k < |s|
            ensures IsDigit(s[k]) || (k == 0 && (s[0] == '+' || s[0] == '-'))
          {
            if k > 0 && digits == s[1..] { assert s[k] == digits[k - 1]; }
          }
        }
      }
      if Numeral(s) {
        if s[0] == '+' || s[0] == '-' {
          var k :| 0 <= k < |s| && IsDigit(s[k]);
          assert k > 0;
          assert forall j :: 0 <= j < |digits| ==> IsDigit(digits[j]) by {
            forall j | 0 <= j < |digits| ensures IsDigit(digits[j]) {
              assert digits[j] == s[j + 1];
            }
          }
        }
      }
    }
  }

  /** Atoi reads back what Itoa writes, for every int64. */
  lemma ParseDecimal(n: int)
    requires MinInt64 <= n <= MaxInt64
    ensures n >= 0 ==> ParseInt(Decimal(n)) == Some(n)
    ensures n < 0 ==> ParseInt("-" + Decimal(-n)) == Some(n)
  {
    if n >= 0 {
      var d := Decimal(n);
      DecimalDigits(n);
      assert IsDigit(d[0]);
    } else {
      var d := Decimal(-n);
      DecimalDigits(-n);
      assert ("-" + d)[1..] == d;
    }
  }

  /** strconv.Itoa of any integer. */
  function Itoa(n: int): string
  {
    if n >= 0 then Decimal(n) else "-" + Decimal(-n)
  }

  /** Itoa writes one line with no surrounding white space. */
  lemma ItoaIsTrimmedLine(n: int)
    ensures Itoa(n) != [] && Trimmed(Itoa(n)) && '\n' !in Itoa(n)
  {
    var d := if n >= 0 then Decimal(n) else Decimal(-n);
    if n >= 0 { DecimalDigits(n); } else { DecimalDigits(-n); }
    var s := Itoa(n);
    assert IsDigit(s[|s| - 1]) by { assert s[|s| - 1] == d[|d| - 1]; }
    assert forall k :: 0 <= k < |s| ==> s[k] == '-' || IsDigit(s[k]) by {
      forall k | 0 <= k < |s| ensures s[k] == '-' || IsDigit(s[k]) {
        if n < 0 && k > 0 { assert s[k] == d[k - 1]; }
      }
    }
  }

  /** Atoi reads back what Itoa writes. */
  lemma ParseItoa(n: int)
    requires MinInt64 <= n <= MaxInt64
    ensures ParseInt(Itoa(n)) == Some(n)
  {
    ParseDecimal(n);
  }

  // ---------------------------------------------------------------- filepath.Base

  function TrimTrailingSlashes(p: string): (r: string)
    ensures |r| <= |p| && r == p[..|r|]
    ensures r == [] || r[|r| - 1] != '/'
    ensures forall k :: |r| <= k < |p| ==> p[k] == '/'
  {
    if p != [] && p[|p| - 1] == '/' then TrimTrailingSlashes(p[..|p| - 1]) else p
  }

  /** The text after the last c in p (all of p when c does not occur). */
  function AfterLast(p: string, c: char): (r: string)
    ensures |r| <= |p| && r == p[|p| - |r|..] && c !in r
    ensures |r| == |p| || p[|p| - |r| - 1] == c
  {
    if p == [] || p[|p| - 1] == c then []
    else
      var r := AfterLast(p[..|p| - 1], c) + [p[|p| - 1]];
      assert p[|p| - |r|..] == p[..|p| - 1][|p| - |r|..] + [p[|p| - 1]];
      r
  }

  lemma {:induction false} AfterLastJoin(a: string, b: string, c: char)
    requires c !in b
    ensures AfterLast(a + [c] + b, c) == b
    decreases |b|
  {
    var p := a + [c] + b;
    if b == [] {
      assert p[|p| - 1] == c;
    } else {
      assert p[..|p| - 1] == a + [c] + b[..|b| - 1];
      AfterLastJoin(a, b[..|b| - 1], c);
      assert b[..|b| - 1] + [b[|b| - 1]] == b;
    }
  }

  /** The text before the first c in p (all of p when c does not occur). */
  function BeforeFirst(p: string, c: char): (r: string)
    ensures |r| <= |p| && r == p[..|r|] && c !in r
    ensures |r| == |p| || p[|r|] == c
  {
    if p == [] || p[0] == c then [] else [p[0]] + BeforeFirst(p[1..], c)
  }

  lemma {:induction false} BeforeFirstJoin(a: string, b: string, c: char)
    requires c !in a
    ensures BeforeFirst(a + [c] + b, c) == a
    decreases |a|
  {
    var p := a + [c] + b;
    if a != [] {
      assert p[1..] == a[1..] + [c] + b;
      BeforeFirstJoin(a[1..], b, c);
    }
  }

  /** filepath.Base on a Unix system: "." for the empty path, "/" for a path of
      slashes only, otherwise the last element after trailing slashes are
      removed -- never empty and, apart from "/", slash-free. */
  function Base(path: string): (r: string)
    ensures r != []
    ensures r != "/" ==> '/' !in r
    ensures path != [] && '/' !in path ==> r == path
  {
    if path == [] then "."
    else
      var p := TrimTrailingSlashes(path);
      if p == [] then "/"
      else
        assert AfterLast(p, '/') != [];
        AfterLast(p, '/')
  }

  /** The name of a file inside a directory is its base name. */
  lemma BaseOfJoin(dir: string, name: string)
    requires name != [] && '/' !in name
    ensures Base(dir + "/" + name) == name
  {
    var p := dir + "/" + name;
    assert p[|p| - 1] == name[|name| - 1];
    assert TrimTrailingSlashes(p) == p;
    AfterLastJoin(dir, name, '/');
  }
}
