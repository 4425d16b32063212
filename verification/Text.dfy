/**
  Strings as the daemon handles them: splitting on a separator, splitting into
  whitespace-separated fields, and decimal integers. Everything here is used to
  show that printed scripts are read back as exactly the commands they stand for.
 */
module Text {

  datatype Option<+T> = None | Some(value: T)

  /** The text before, between and after the separators, empty parts included. */
  function Split(s: string, sep: char): (parts: seq<string>)
    ensures |parts| >= 1
  {
    if s == [] then [""]
    else
      var rest := Split(s[1..], sep);
      if s[0] == sep then [""] + rest
      else [[s[0]] + rest[0]] + rest[1..]
  }

  function Join(parts: seq<string>, sep: char): string
  {
    if parts == [] then ""
    else if |parts| == 1 then parts[0]
    else parts[0] + [sep] + Join(parts[1..], sep)
  }

  /** Every line followed by a newline, as the printers write them. */
  function Unlines(lines: seq<string>): string
  {
    if lines == [] then "" else lines[0] + "\n" + Unlines(lines[1..])
  }

  lemma {:induction false} SplitWord(w: string, sep: char)
    requires sep !in w
    ensures Split(w, sep) == [w]
  {
    if w != [] {
      assert w[0] in w;
      SplitWord(w[1..], sep);
      assert [w[0]] + w[1..] == w;
    }
  }

  lemma {:induction false} SplitAtSeparator(a: string, b: string, sep: char)
    ensures Split(a + [sep] + b, sep) == Split(a, sep) + Split(b, sep)
  {
    if a == [] {
      assert a + [sep] + b == [sep] + b;
    } else {
      var whole := a + [sep] + b;
      var rest := Split(a[1..], sep);
      assert whole[1..] == a[1..] + [sep] + b;
      SplitAtSeparator(a[1..], b, sep);
      SplitHead(a[0], rest, Split(b, sep), sep);
    }
  }

  /** The pieces of a text whose first character is `c`, given those of the rest. */
  function WithHead(c: char, pieces: seq<string>, sep: char): seq<string>
    requires pieces != []
  {
    if c == sep then [""] + pieces else [[c] + pieces[0]] + pieces[1..]
  }

  lemma SplitHead(c: char, a: seq<string>, b: seq<string>, sep: char)
    requires a != []
    ensures WithHead(c, a + b, sep) == WithHead(c, a, sep) + b
  {
    assert (a + b)[1..] == a[1..] + b;
    assert [""] + (a + b) == [""] + a + b;
  }

  lemma {:induction false} JoinAppend(a: seq<string>, b: seq<string>, sep: char)
    requires a != [] && b != []
    ensures Join(a + b, sep) == Join(a, sep) + [sep] + Join(b, sep)
  {
    if |a| == 1 {
      assert (a + b)[1..] == b;
    } else {
      assert (a + b)[1..] == a[1..] + b;
      JoinAppend(a[1..], b, sep);
      assert Join(a + b, sep) == a[0] + [sep] + (Join(a[1..], sep) + [sep] + Join(b, sep));
    }
  }

  /** Splitting and joining are inverse on the one side ... */
  lemma {:induction false} JoinSplit(s: string, sep: char)
    ensures Join(Split(s, sep), sep) == s
  {
    if s != [] {
      JoinSplit(s[1..], sep);
      var rest := Split(s[1..], sep);
      if s[0] == sep {
        assert Split(s, sep)[1..] == rest;
        assert Join(Split(s, sep), sep) == "" + [sep] + Join(rest, sep);
      } else {
        var head := [s[0]] + rest[0];
        if |rest| > 1 {
          assert Split(s, sep)[1..] == rest[1..];
          assert Join(Split(s, sep), sep) == head + [sep] + Join(rest[1..], sep);
        }
      }
    }
  }

  /** ... and on the other, when no part holds the separator. */
  lemma {:induction false} SplitJoin(parts: seq<string>, sep: char)
    requires parts != []
    requires forall p | p in parts :: sep !in p
    ensures Split(Join(parts, sep), sep) == parts
  {
    SplitWord(parts[0], sep);
    if |parts| > 1 {
      SplitAtSeparator(parts[0], Join(parts[1..], sep), sep);
      SplitJoin(parts[1..], sep);
    }
  }

  lemma {:induction false} SplitUnlines(lines: seq<string>)
    requires forall l | l in lines :: '\n' !in l
    ensures Split(Unlines(lines), '\n') == lines + [""]
  {
    if lines != [] {
      var rest := Unlines(lines[1..]);
      SplitWord(lines[0], '\n');
      assert Unlines(lines) == lines[0] + ['\n'] + rest;
      SplitAtSeparator(lines[0], rest, '\n');
      SplitUnlines(lines[1..]);
    }
  }

  lemma {:induction false} UnlinesAppend(a: seq<string>, b: seq<string>)
    ensures Unlines(a + b) == Unlines(a) + Unlines(b)
  {
    if a == [] {
      assert a + b == b;
    } else {
      UnlinesAppend(a[1..], b);
      assert (a + b)[1..] == a[1..] + b;
    }
  }

  // ---- Whitespace-separated fields ----

  /** What `getCurrentRules` splits on. */
  predicate IsBlank(c: char) { c == ' ' || c == '\t' }

  /** What `strings.Fields` splits on, restricted to the Latin-1 range. */
  predicate IsSpace(c: char)
  {
    c in {' ', '\t', '\n', '\U{000B}', '\U{000C}', '\r', '\U{0085}', '\U{00A0}'}
  }

  /** Length of the run of non-space characters at the front. */
  function WordLength(s: string, space: char -> bool): (n: nat)
    ensures n <= |s|
    ensures forall i | 0 <= i < n :: !space(s[i])
    ensures n < |s| ==> space(s[n])
  {
    if s == [] || space(s[0]) then 0 else 1 + WordLength(s[1..], space)
  }

  function Fields(s: string, space: char -> bool): seq<string>
    decreases |s|
  {
    if s == [] then []
    else if space(s[0]) then Fields(s[1..], space)
    else
      var n := WordLength(s, space);
      [s[..n]] + Fields(s[n..], space)
  }

  /** A token that survives printing and reading: not empty, no whitespace. */
  predicate IsToken(t: string)
  {
    t != [] && forall c | c in t :: !IsSpace(c)
  }

  lemma {:induction false} WordLengthOfPrefix(w: string, rest: string, space: char -> bool)
    requires forall c | c in w :: !space(c)
    requires rest != [] ==> space(rest[0])
    ensures WordLength(w + rest, space) == |w|
  {
    if w == [] {
      assert w + rest == rest;
    } else {
      assert (w + rest)[1..] == w[1..] + rest;
      WordLengthOfPrefix(w[1..], rest, space);
    }
  }

  /** Joining tokens with single spaces loses nothing. */
  lemma {:induction false} FieldsOfJoin(tokens: seq<string>, space: char -> bool)
    requires space(' ')
    requires forall t | t in tokens :: t != [] && forall c | c in t :: !space(c)
    ensures Fields(Join(tokens, ' '), space) == tokens
  {
    if tokens != [] {
      var w := tokens[0];
      assert w in tokens;
      var line := Join(tokens, ' ');
      var rest := if |tokens| == 1 then "" else " " + Join(tokens[1..], ' ');
      assert line == w + rest;
      WordLengthOfPrefix(w, rest, space);
      assert line[0] == w[0] && w[0] in w;
      assert line[..|w|] == w && line[|w|..] == rest;
      if |tokens| > 1 {
        assert forall t | t in tokens[1..] :: t in tokens;
        FieldsOfJoin(tokens[1..], space);
        assert rest[1..] == Join(tokens[1..], ' ');
      }
    }
  }

  lemma {:induction false} FieldsSkipPrefixWord(s: string, n: nat, space: char -> bool)
    requires 0 < n <= |s|
    requires forall i | 0 <= i < n :: !space(s[i])
    requires n < |s| ==> space(s[n])
    ensures Fields(s, space) == [s[..n]] + Fields(s[n..], space)
  {
    assert s == s[..n] + s[n..];
    assert forall c | c in s[..n] :: !space(c);
    WordLengthOfPrefix(s[..n], s[n..], space);
  }

  lemma FieldsDropSpace(s: string, space: char -> bool)
    requires s != [] && space(s[0])
    ensures Fields(s, space) == Fields(s[1..], space)
  {
  }

  /** The text before `i` is split into `fields`, but for a field begun at `from`. */
  ghost predicate Scanned(data: string, fields: seq<string>, from: nat, i: nat)
  {
    && from <= i <= |data|
    && (forall k | from <= k < i :: !IsBlank(data[k]))
    && Fields(data, IsBlank) == fields + Fields(data[from..], IsBlank)
  }

  lemma ScanBlank(data: string, fields: seq<string>, from: nat, i: nat)
    requires Scanned(data, fields, from, i) && i < |data| && IsBlank(data[i])
    ensures Scanned(data, if from < i then fields + [data[from..i]] else fields, i + 1, i + 1)
  {
    if from < i {
      EndOfField(data, from, i);
    }
    FieldsDropSpace(data[i..], IsBlank);
    assert data[i..][1..] == data[i + 1..];
  }

  /** `splitFields`: one pass, remembering where the current field began. */
  method SplitFields(data: string) returns (fields: seq<string>)
    ensures fields == Fields(data, IsBlank)
  {
    fields := [];
    var start := -1;
    assert data[0..] == data;
    for i := 0 to |data|
      invariant -1 <= start < i || start == -1
      invariant Scanned(data, fields, if start >= 0 then start else i, i)
    {
      var b := data[i];
      if b == ' ' || b == '\t' {
        ScanBlank(data, fields, if start >= 0 then start else i, i);
        if start >= 0 {
          fields := fields + [data[start..i]];
          start := -1;
        }
      } else if start < 0 {
        start := i;
      }
    }
    assert data[|data|..] == "";
    if start >= 0 {
      EndOfField(data, start, |data|);
      assert data[start..|data|] == data[start..];
      fields := fields + [data[start..]];
    }
  }

  lemma EndOfField(data: string, start: nat, end: nat)
    requires start < end <= |data|
    requires forall k | start <= k < end :: !IsBlank(data[k])
    requires end < |data| ==> IsBlank(data[end])
    ensures Fields(data[start..], IsBlank) == [data[start..end]] + Fields(data[end..], IsBlank)
  {
    var tail := data[start..];
    FieldsSkipPrefixWord(tail, end - start, IsBlank);
    assert tail[..end - start] == data[start..end] && tail[end - start..] == data[end..];
  }

  // ---- Decimal integers ----

  const INT64_MIN: int := -0x8000_0000_0000_0000
  const INT64_MAX: int := 0x7FFF_FFFF_FFFF_FFFF

  predicate IsDigit(c: char) { '0' <= c <= '9' }

  function Digit(n: nat): (c: char)
    requires n < 10
  {
    '0' + (n as char)
  }

  function Digits(n: nat): (s: string)
    ensures s != [] && forall c | c in s :: IsDigit(c)
  {
    if n < 10 then [Digit(n)] else Digits(n / 10) + [Digit(n % 10)]
  }

  function DigitsValue(s: string): nat
    requires forall c | c in s :: IsDigit(c)
  {
    if s == [] then 0
    else
      assert IsDigit(s[|s| - 1]);
      DigitsValue(s[..|s| - 1]) * 10 + (s[|s| - 1] as int - '0' as int)
  }

  function Itoa(n: int): string
  {
    if n < 0 then "-" + Digits(-n) else Digits(n)
  }

  /** `strconv.Atoi`: an optional sign, then digits, within 64 bits. */
  function Atoi(s: string): Option<int>
  {
    var signed := s != [] && (s[0] == '-' || s[0] == '+');
    var digits := if signed then s[1..] else s;
    if digits == [] || exists c | c in digits :: !IsDigit(c) then None
    else
      var magnitude: int := DigitsValue(digits);
      var v := if signed && s[0] == '-' then 0 - magnitude else magnitude;
      if INT64_MIN <= v <= INT64_MAX then Some(v) else None
  }

  lemma {:induction false} DigitsRoundTrip(n: nat)
    ensures DigitsValue(Digits(n)) == n
  {
    if n >= 10 {
      DigitsRoundTrip(n / 10);
      assert Digits(n)[..|Digits(n)| - 1] == Digits(n / 10);
    }
  }

  lemma AtoiItoa(n: int)
    requires INT64_MIN <= n <= INT64_MAX
    ensures Atoi(Itoa(n)) == Some(n)
    ensures IsToken(Itoa(n))
  {
    var s := Digits(if n < 0 then -n else n);
    DigitsRoundTrip(if n < 0 then -n else n);
    assert s[0] in s;
    if n < 0 {
      SignedReadsBack(s, -n);
    }
  }

  lemma SignedReadsBack(digits: string, n: nat)
    requires digits != [] && (forall c | c in digits :: IsDigit(c)) && DigitsValue(digits) == n && n <= -INT64_MIN
    ensures Atoi("-" + digits) == Some(0 - n)
  {
    assert ("-" + digits)[1..] == digits;
  }
}
