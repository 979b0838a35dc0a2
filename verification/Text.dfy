/** Text as the gateway reads and writes it: tokens, decimal numbers, lines. */
module Text {
  import opened Types

  // ----------------------------------------------------------------- tokens

  predicate IsBlank(c: char) {
    c == ' ' || c == '\t' || c == '\r'
  }

  predicate Solid(s: string) {
    forall k :: 0 <= k < |s| ==> !IsBlank(s[k])
  }

  function WordLength(s: string): (n: nat)
    ensures n <= |s| && Solid(s[..n])
    ensures n < |s| ==> IsBlank(s[n])
  {
    if s == [] || IsBlank(s[0]) then 0
    else
      var n := WordLength(s[1..]);
      assert s[..n + 1] == [s[0]] + s[1..][..n];
      n + 1
  }

  /** The maximal runs of characters that are not blank. */
  function Tokens(s: string): seq<string>
    decreases |s|
  {
    if s == [] then []
    else if IsBlank(s[0]) then Tokens(s[1..])
    else
      var n := WordLength(s);
      [s[..n]] + Tokens(s[n..])
  }

  lemma {:induction false} WordLengthIs(s: string, n: nat)
    requires n <= |s| && Solid(s[..n]) && (n < |s| ==> IsBlank(s[n]))
    ensures WordLength(s) == n
  {
    if n > 0 {
      assert !IsBlank(s[..n][0]) && s[1..][..n - 1] == s[..n][1..];
      WordLengthIs(s[1..], n - 1);
    }
  }

  lemma TokensOfWord(w: string)
    requires w != [] && Solid(w)
    ensures Tokens(w) == [w]
  {
    assert w[..|w|] == w && w[|w|..] == [];
    WordLengthIs(w, |w|);
  }

  /** A blank separates: the tokens before it and those after it. */
  lemma {:induction false} TokensAroundBlank(a: string, c: char, b: string)
    requires IsBlank(c)
    ensures Tokens(a + [c] + b) == Tokens(a) + Tokens(b)
    decreases |a|
  {
    var s := a + [c] + b;
    if a == [] {
      assert s[1..] == b;
    } else if IsBlank(a[0]) {
      assert s[1..] == a[1..] + [c] + b;
      TokensAroundBlank(a[1..], c, b);
    } else {
      var n := WordLength(a);
      assert s[..n] == a[..n] && s[n..] == a[n..] + [c] + b;
      WordLengthIs(s, n);
      TokensAroundBlank(a[n..], c, b);
    }
  }

  /** A non-empty text without space, tabulator and carriage return is one token, and
      each of the three separates the tokens around it: these laws leave no other
      choice of tokens. */
  lemma {:induction false} TokensAreDetermined(f: string -> seq<string>, s: string)
    requires f([]) == []
    requires forall w: string :: w != [] && ' ' !in w && '\t' !in w && '\r' !in w ==> f(w) == [w]
    requires forall a: string, c: char, b: string :: c == ' ' || c == '\t' || c == '\r' ==>
             f(a + [c] + b) == f(a) + f(b)
    ensures f(s) == Tokens(s)
    decreases |s|
  {
    var n := WordLength(s);
    if n == |s| {
      assert s[..n] == s;
      if s != [] { TokensOfWord(s); }
    } else {
      assert s == s[..n] + [s[n]] + s[n + 1..];
      TokensAroundBlank(s[..n], s[n], s[n + 1..]);
      TokensAreDetermined(f, s[..n]);
      TokensAreDetermined(f, s[n + 1..]);
    }
  }

  lemma BlankSkipped(line: string, start: nat)
    requires start < |line| && IsBlank(line[start])
    ensures Tokens(line[start..]) == Tokens(line[start + 1..])
  {
  }

  lemma WordGrows(line: string, start: nat, end: nat)
    requires start <= end < |line| && Solid(line[start..end]) && !IsBlank(line[end])
    ensures Solid(line[start..end + 1])
  {
    assert line[start..end + 1] == line[start..end] + [line[end]];
  }

  lemma WordTaken(line: string, start: nat, end: nat)
    requires start < end <= |line| && (end < |line| ==> IsBlank(line[end])) && Solid(line[start..end])
    ensures Tokens(line[start..]) == [line[start..end]] + Tokens(line[end..])
  {
    var s := line[start..];
    assert s[..end - start] == line[start..end] && s[end - start..] == line[end..];
    assert !IsBlank(line[start..end][0]);
    WordLengthIs(s, end - start);
  }

  lemma Moved<T>(a: seq<T>, x: T, b: seq<T>)
    ensures a + ([x] + b) == (a + [x]) + b
  {
  }

  lemma WholeLine(line: string)
    ensures line[0..] == line && Tokens(line[|line|..]) == []
  {
  }

  method SplitTokens(line: string) returns (tokens: seq<string>)
    ensures tokens == Tokens(line)
  {
    tokens := [];
    var start := 0;
    ghost var rest := Tokens(line);
    WholeLine(line);
    while start < |line|
      invariant start <= |line| && rest == Tokens(line[start..])
      invariant tokens + rest == Tokens(line)
    {
      while start < |line| && IsBlank(line[start])
        invariant start <= |line| && rest == Tokens(line[start..])
      {
        BlankSkipped(line, start);
        start := start + 1;
      }
      if start >= |line| {
        break;
      }
      var end := start;
      while end < |line| && !IsBlank(line[end])
        invariant start <= end <= |line| && Solid(line[start..end])
      {
        WordGrows(line, start, end);
        end := end + 1;
      }
      WordTaken(line, start, end);
      rest := Tokens(line[end..]);
      Moved(tokens, line[start..end], rest);
      tokens := tokens + [line[start..end]];
      start := end;
    }
  }

  /** Words written with single spaces between them. */
  function Sentence(words: seq<string>): string {
    if words == [] then []
    else if |words| == 1 then words[0]
    else words[0] + " " + Sentence(words[1..])
  }

  lemma {:induction false} SentenceTokens(words: seq<string>)
    requires forall k :: 0 <= k < |words| ==> words[k] != [] && Solid(words[k])
    ensures Tokens(Sentence(words)) == words
  {
    if words == [] {
    } else if |words| == 1 {
      TokensOfWord(words[0]);
    } else {
      TokensAroundBlank(words[0], ' ', Sentence(words[1..]));
      TokensOfWord(words[0]);
      SentenceTokens(words[1..]);
    }
  }

  // ---------------------------------------------------------------- numbers

  predicate IsDigit(c: char) {
    '0' <= c <= '9'
  }

  function DigitOf(d: nat): (c: char)
    requires d < 10
    ensures IsDigit(c) && ValueOf(c) == d
  {
    ('0' as int + d) as char
  }

  function ValueOf(c: char): nat
    requires IsDigit(c)
  {
    c as int - '0' as int
  }

  predicate AllDigits(s: string) {
    forall k :: 0 <= k < |s| ==> IsDigit(s[k])
  }

  function Value(s: string): nat
    requires AllDigits(s)
  {
    if s == [] then 0 else 10 * Value(s[..|s| - 1]) + ValueOf(s[|s| - 1])
  }

  /** A whole token of decimal digits with a value below `bound`: the contract of
      `std::from_chars` on an unsigned type, with the check that it used it all. */
  function ParseNum(s: string, bound: nat): Option<nat> {
    if s != [] && AllDigits(s) && Value(s) < bound then Some(Value(s)) else None
  }

  function ToString(n: nat): string {
    if n < 10 then [DigitOf(n)] else ToString(n / 10) + [DigitOf(n % 10)]
  }

  lemma {:induction false} NumeralsAreRead(n: nat)
    ensures ToString(n) != [] && AllDigits(ToString(n)) && Value(ToString(n)) == n
    decreases n
  {
    if n < 10 {
      assert ToString(n)[..0] == [];
    } else {
      NumeralsAreRead(n / 10);
      assert ToString(n)[..|ToString(n)| - 1] == ToString(n / 10);
    }
  }

  lemma DigitsAreSolid(s: string)
    requires AllDigits(s)
    ensures Solid(s) && '\n' !in s
  {
  }

  /** Reading undoes printing, and fails on what does not fit. */
  lemma ParsePrinted(n: nat, bound: nat)
    ensures ParseNum(ToString(n), bound) == if n < bound then Some(n) else None
    ensures ToString(n) != [] && Solid(ToString(n)) && '\n' !in ToString(n)
  {
    NumeralsAreRead(n);
    DigitsAreSolid(ToString(n));
  }

  function Pow10(k: nat): nat {
    if k == 0 then 1 else 10 * Pow10(k - 1)
  }

  /** A digit counts what it stands for, and every place ten times the next. */
  lemma {:induction false} PlaceValue(a: string, b: string)
    requires AllDigits(a) && AllDigits(b)
    ensures AllDigits(a + b) && Value(a + b) == Value(a) * Pow10(|b|) + Value(b)
    ensures |a| == 1 ==> Value(a) == a[0] as int - '0' as int
  {
    if |a| == 1 {
      assert a[..0] == [];
    }
    if b == [] {
      assert a + b == a;
    } else {
      var b' := b[..|b| - 1];
      assert (a + b)[..|a + b| - 1] == a + b' && |b'| == |b| - 1;
      PlaceValue(a, b');
      TenTimes(Value(a), Pow10(|b'|));
    }
  }

  lemma TenTimes(n: nat, m: nat)
    ensures 10 * (n * m) == n * (10 * m)
  {
  }

  /** `s` is the numeral of `n`, perhaps with zeros in front. */
  predicate Denotes(s: string, n: nat) {
    s == ToString(n) || (s != [] && s[0] == '0' && Denotes(s[1..], n))
  }

  lemma ZeroInFront(s: string)
    requires s != [] && s[0] == '0' && AllDigits(s[1..])
    ensures AllDigits(s) && Value(s) == Value(s[1..])
  {
    assert s == ['0'] + s[1..];
    PlaceValue(['0'], s[1..]);
  }

  lemma {:induction false} DenotesItsValue(s: string, n: nat)
    requires Denotes(s, n)
    ensures s != [] && AllDigits(s) && Value(s) == n
  {
    if s == ToString(n) {
      NumeralsAreRead(n);
    } else {
      DenotesItsValue(s[1..], n);
      ZeroInFront(s);
    }
  }

  lemma DigitNumeral(c: char)
    requires IsDigit(c)
    ensures ToString(ValueOf(c)) == [c]
  {
    assert DigitOf(ValueOf(c)) == c;
  }

  lemma NumeralGrows(n: nat, c: char)
    requires n > 0 && IsDigit(c)
    ensures ToString(10 * n + ValueOf(c)) == ToString(n) + [c]
  {
    assert (10 * n + ValueOf(c)) / 10 == n && (10 * n + ValueOf(c)) % 10 == ValueOf(c);
    assert DigitOf(ValueOf(c)) == c;
  }

  /** Digits without a zero in front are a numeral. */
  lemma {:induction false} NumeralOfValue(s: string)
    requires s != [] && AllDigits(s) && (|s| > 1 ==> s[0] != '0')
    ensures ToString(Value(s)) == s
  {
    var front, c := s[..|s| - 1], s[|s| - 1];
    assert s == front + [c];
    if front == [] {
      assert Value(front) == 0;
      DigitNumeral(c);
    } else {
      NumeralOfValue(front);
      if Value(front) == 0 {
        DigitNumeral('0');
      } else {
        NumeralGrows(Value(front), c);
      }
    }
  }

  lemma {:induction false} DigitsDenote(s: string)
    requires s != [] && AllDigits(s)
    ensures Denotes(s, Value(s))
  {
    if |s| > 1 && s[0] == '0' {
      DigitsDenote(s[1..]);
      ZeroInFront(s);
    } else {
      NumeralOfValue(s);
    }
  }

  /** A token is read as a number exactly if it is that number's numeral, perhaps with
      zeros in front, and the number is below the bound. */
  lemma NumberExactlyWhen(s: string, bound: nat, n: nat)
    ensures ParseNum(s, bound) == Some(n) <==> n < bound && Denotes(s, n)
  {
    if Denotes(s, n) {
      DenotesItsValue(s, n);
    }
    if s != [] && AllDigits(s) {
      DigitsDenote(s);
    }
  }

  // ------------------------------------------------------------------ lines

  /** Where the first line ends: its newline, or the end of the text. */
  function LineLength(s: string): (n: nat)
    ensures n <= |s| && '\n' !in s[..n]
    ensures n < |s| ==> s[n] == '\n'
  {
    if s == [] || s[0] == '\n' then 0
    else
      var n := LineLength(s[1..]);
      assert s[..n + 1] == [s[0]] + s[1..][..n];
      n + 1
  }

  function WithoutCR(line: string): string {
    if line != [] && line[|line| - 1] == '\r' then line[..|line| - 1] else line
  }

  /** The complete lines of a text, without their line ends. */
  function Lines(s: string): seq<string>
    decreases |s|
  {
    var n := LineLength(s);
    if n == |s| then [] else [WithoutCR(s[..n])] + Lines(s[n + 1..])
  }

  /** What follows the last complete line. */
  function Rest(s: string): string
    decreases |s|
  {
    var n := LineLength(s);
    if n == |s| then s else Rest(s[n + 1..])
  }

  lemma {:induction false} LineLengthIs(s: string, n: nat)
    requires n <= |s| && '\n' !in s[..n] && (n < |s| ==> s[n] == '\n')
    ensures LineLength(s) == n
  {
    if n > 0 {
      assert s[..n][0] != '\n' && s[1..][..n - 1] == s[..n][1..];
      LineLengthIs(s[1..], n - 1);
    }
  }

  lemma {:induction false} LinesConcat(a: string, b: string)
    ensures Lines(a + b) == Lines(a) + Lines(Rest(a) + b)
    ensures Rest(a + b) == Rest(Rest(a) + b)
    decreases |a|
  {
    var n := LineLength(a);
    if n < |a| {
      CutConcat(a, b, n);
      LineLengthIs(a + b, n);
      LinesConcat(a[n + 1..], b);
    }
  }

  lemma CutConcat(a: string, b: string, n: nat)
    requires n < |a|
    ensures (a + b)[..n] == a[..n] && (a + b)[n] == a[n] && (a + b)[n + 1..] == a[n + 1..] + b
  {
  }

  method TakeLines(buffer: string) returns (lines: seq<string>, rest: string)
    ensures lines == Lines(buffer) && rest == Rest(buffer)
  {
    lines, rest := [], buffer;
    var newline := LineLength(rest);
    while newline < |rest|
      invariant newline == LineLength(rest)
      invariant lines + Lines(rest) == Lines(buffer) && Rest(rest) == Rest(buffer)
      decreases |rest|
    {
      Moved(lines, WithoutCR(rest[..newline]), Lines(rest[newline + 1..]));
      lines := lines + [WithoutCR(rest[..newline])];
      rest := rest[newline + 1..];
      newline := LineLength(rest);
    }
  }

  function Concat(chunks: seq<string>): string {
    if chunks == [] then [] else Concat(chunks[..|chunks| - 1]) + chunks[|chunks| - 1]
  }

  /** One readiness event: everything the socket has is appended to the buffer,
      then the complete lines are taken out of it. */
  method HandleRead(buffer: string, chunks: seq<string>) returns (lines: seq<string>, rest: string)
    ensures lines == Lines(buffer + Concat(chunks)) && rest == Rest(buffer + Concat(chunks))
  {
    rest := buffer;
    for i := 0 to |chunks|
      invariant rest == buffer + Concat(chunks[..i])
    {
      AppendChunk(buffer, chunks, i);
      rest := rest + chunks[i];
    }
    assert chunks[..|chunks|] == chunks;
    lines, rest := TakeLines(rest);
  }

  lemma AppendChunk(buffer: string, chunks: seq<string>, i: nat)
    requires i < |chunks|
    ensures buffer + Concat(chunks[..i + 1]) == buffer + Concat(chunks[..i]) + chunks[i]
  {
    assert chunks[..i + 1][..i] == chunks[..i];
  }

  datatype Reader = Reader(lines: seq<string>, buffer: string)

  /** What has been delivered after a sequence of reads, and what is buffered. */
  function Deliver(chunks: seq<string>): Reader {
    if chunks == [] then Reader([], [])
    else
      var r := Deliver(chunks[..|chunks| - 1]);
      var buffer := r.buffer + chunks[|chunks| - 1];
      Reader(r.lines + Lines(buffer), Rest(buffer))
  }

  /** However the stream is cut up, the same lines are delivered. */
  lemma {:induction false} FragmentationDoesNotMatter(chunks: seq<string>)
    ensures Deliver(chunks) == Reader(Lines(Concat(chunks)), Rest(Concat(chunks)))
  {
    if chunks != [] {
      FragmentationDoesNotMatter(chunks[..|chunks| - 1]);
      LinesConcat(Concat(chunks[..|chunks| - 1]), chunks[|chunks| - 1]);
    }
  }

  /** A text of whole lines is read line by line. */
  lemma LinesOfLine(line: string, s: string)
    requires '\n' !in line && (line == [] || line[|line| - 1] != '\r')
    ensures Lines(line + "\n" + s) == [line] + Lines(s)
  {
    var t := line + "\n" + s;
    assert t[..|line|] == line && t[|line| + 1..] == s;
    LineLengthIs(t, |line|);
  }

  /** So is one whose lines end in carriage return and newline. */
  lemma LinesOfLineCR(line: string, s: string)
    requires '\n' !in line
    ensures Lines(line + "\r\n" + s) == [line] + Lines(s)
  {
    var t := line + "\r\n" + s;
    assert t[..|line| + 1] == line + "\r" && t[|line| + 2..] == s && t[|line| + 1] == '\n';
    LineLengthIs(t, |line| + 1);
    assert (line + "\r")[..|line|] == line;
  }

  lemma NoLine(s: string)
    requires '\n' !in s
    ensures Lines(s) == [] && Rest(s) == s
  {
    assert s[..|s|] == s;
    LineLengthIs(s, |s|);
  }

  /** A line without newline, and its end, come off the front of a text. */
  ghost predicate TakesLine(f: string -> seq<string>, line: string, t: string) {
    '\n' !in line ==>
      && f(line + "\r\n" + t) == [line] + f(t)
      && (line == [] || line[|line| - 1] != '\r' ==> f(line + "\n" + t) == [line] + f(t))
  }

  lemma FrontLineCR(f: string -> seq<string>, line: string, t: string)
    requires '\n' !in line && TakesLine(f, line, t) && f(t) == Lines(t)
    ensures f(line + "\r\n" + t) == Lines(line + "\r\n" + t)
  {
    LinesOfLineCR(line, t);
  }

  lemma FrontLine(f: string -> seq<string>, line: string, t: string)
    requires '\n' !in line && (line == [] || line[|line| - 1] != '\r') && TakesLine(f, line, t) && f(t) == Lines(t)
    ensures f(line + "\n" + t) == Lines(line + "\n" + t)
  {
    LinesOfLine(line, t);
  }

  lemma CutAtLine(s: string, n: nat)
    requires n < |s| && s[n] == '\n'
    ensures s == s[..n] + "\n" + s[n + 1..]
    ensures n > 0 && s[n - 1] == '\r' ==> s == s[..n - 1] + "\r\n" + s[n + 1..]
  {
  }

  /** Lines end in a newline, with or without a carriage return before it, and what
      has no newline is no line yet: these laws determine the lines of every text. */
  lemma {:induction false} LinesAreDetermined(f: string -> seq<string>, s: string)
    requires forall t: string :: '\n' !in t ==> f(t) == []
    requires forall line: string, t: string :: TakesLine(f, line, t)
    ensures f(s) == Lines(s)
    decreases |s|
  {
    var n := LineLength(s);
    if n == |s| {
      assert s[..n] == s;
      NoLine(s);
    } else {
      LinesAreDetermined(f, s[n + 1..]);
      CutAtLine(s, n);
      if n > 0 && s[n - 1] == '\r' {
        assert TakesLine(f, s[..n - 1], s[n + 1..]);
        FrontLineCR(f, s[..n - 1], s[n + 1..]);
      } else {
        assert TakesLine(f, s[..n], s[n + 1..]);
        FrontLine(f, s[..n], s[n + 1..]);
      }
    }
  }
}
