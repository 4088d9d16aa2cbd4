/**
 The text format of number files: decimal lines as the coordinator prints them, and
 the scan / trim / parse loop with which they are read back.
 */
module Decimal {
  import opened Words
  import opened Sequences

  // ---------- Printing ----------

  function DigitChar(d: nat): char
    requires d < 10
  {
    '0' + d as char
  }

  predicate IsDigit(c: char)
  {
    '0' <= c <= '9'
  }

  function Digits(n: nat): (s: string)
    ensures |s| > 0 && AllDigits(s)
  {
    if n < 10 then [DigitChar(n)] else Digits(n / 10) + [DigitChar(n % 10)]
  }

  function IntDigits(n: int): string
  {
    if n < 0 then "-" + Digits(-n) else Digits(n)
  }

  // One number on each newline-terminated line.
  function PrintLines(numbers: seq<uint64>): string
  {
    if numbers == [] then "" else Digits(numbers[0] as nat) + "\n" + PrintLines(numbers[1..])
  }

  // ---------- Parsing ----------

  predicate AllDigits(s: string)
  {
    forall i :: 0 <= i < |s| ==> IsDigit(s[i])
  }

  function Value(s: string): nat
    requires AllDigits(s)
  {
    if s == "" then 0
    else 10 * Value(s[..|s| - 1]) + (s[|s| - 1] - '0') as nat
  }

  // A non-empty run of digits whose value fits in 64 bits; anything else is an error.
  function ParseUint(s: string): Option<uint64>
  {
    if s != "" && AllDigits(s) && Value(s) < TWO_TO_THE_64 then Some(Value(s) as uint64) else None
  }

  predicate IsSpace(c: char)
  {
    c == ' ' || c == '\t' || c == '\n' || c == '\r' || c as int == 11 || c as int == 12
  }

  function TrimLeft(s: string): string
  {
    if s != "" && IsSpace(s[0]) then TrimLeft(s[1..]) else s
  }

  function TrimRight(s: string): string
  {
    if s != "" && IsSpace(s[|s| - 1]) then TrimRight(s[..|s| - 1]) else s
  }

  function TrimSpace(s: string): string
  {
    TrimRight(TrimLeft(s))
  }

  // ---------- Scanning lines with a bounded buffer ----------

  const SCANNER_BUFFER := 256

  // Lines up to the end of the text, or up to the first one that overflows the buffer.
  datatype Scan = Scan(lines: seq<string>, complete: bool)

  function LineEnd(text: string): (i: nat)
    ensures i <= |text| && forall k :: 0 <= k < i ==> text[k] != '\n'
    ensures i < |text| ==> text[i] == '\n'
  {
    if text == "" || text[0] == '\n' then 0 else 1 + LineEnd(text[1..])
  }

  function DropCarriageReturn(line: string): string
  {
    if line != "" && line[|line| - 1] == '\r' then line[..|line| - 1] else line
  }

  function ScanLines(text: string): Scan
    decreases |text|
  {
    if text == "" then Scan([], true)
    else
      var i := LineEnd(text);
      if i >= SCANNER_BUFFER then Scan([], false)
      else
        var line := DropCarriageReturn(text[..i]);
        var rest := if i == |text| then Scan([], true) else ScanLines(text[i + 1..]);
        Scan([line] + rest.lines, rest.complete)
  }

  // The number a line contributes, if any: blank and malformed lines are skipped.
  function LineNumbers(line: string): seq<uint64>
  {
    var trimmed := TrimSpace(line);
    if trimmed == "" then []
    else match ParseUint(trimmed)
      case None => []
      case Some(n) => [n]
  }

  function NumbersIn(lines: seq<string>): seq<uint64>
  {
    if lines == [] then [] else NumbersIn(lines[..|lines| - 1]) + LineNumbers(lines[|lines| - 1])
  }

  // ---------- Round trip ----------

  lemma {:induction false} ValueOfDigits(n: nat)
    ensures Value(Digits(n)) == n
  {
    if n < 10 {
      assert Digits(n)[..0] == "";
    } else {
      ValueOfDigits(n / 10);
      var s := Digits(n / 10);
      assert Digits(n)[..|Digits(n)| - 1] == s;
    }
  }

  // Distinct numbers have distinct numerals.
  lemma DigitsInjective(m: nat, n: nat)
    requires Digits(m) == Digits(n)
    ensures m == n
  {
    ValueOfDigits(m);
    ValueOfDigits(n);
  }

  lemma SignOf(n: int) returns (negative: bool)
    ensures negative == (n < 0) == (IntDigits(n)[0] == '-')
  {
    negative := n < 0;
    if !negative { assert IsDigit(Digits(n)[0]); }
  }

  lemma IntDigitsInjective(m: int, n: int)
    requires IntDigits(m) == IntDigits(n)
    ensures m == n
  {
    if m < 0 && n < 0 {
      assert IntDigits(m)[1..] == Digits(-m);
      assert IntDigits(n)[1..] == Digits(-n);
      DigitsInjective(-m, -n);
    } else if m >= 0 && n >= 0 {
      DigitsInjective(m, n);
    } else {
      var _ := SignOf(m);
      var _ := SignOf(n);
    }
  }

  function TenTo(k: nat): nat
  {
    if k == 0 then 1 else 10 * TenTo(k - 1)
  }

  lemma {:induction false} DigitsLength(n: nat, k: nat)
    requires k > 0 && n < TenTo(k)
    ensures |Digits(n)| <= k
  {
    if n < 10 {
    } else {
      assert k > 1;
      DigitsLength(n / 10, k - 1);
    }
  }

  lemma WordFitsTwentyDigits(n: uint64)
    ensures |Digits(n as nat)| <= 20
  {
    assert TenTo(5) == 100_000;
    assert TenTo(10) == 10_000_000_000;
    assert TenTo(15) == 1_000_000_000_000_000;
    assert TenTo(20) == 100_000_000_000_000_000_000;
    DigitsLength(n as nat, 20);
  }

  lemma {:induction false} NumbersInFront(line: string, lines: seq<string>)
    ensures NumbersIn([line] + lines) == LineNumbers(line) + NumbersIn(lines)
  {
    hide LineNumbers;
    if lines == [] {
      assert [line] + lines == [line];
      assert [line][..0] == [];
    } else {
      var front, last := lines[..|lines| - 1], lines[|lines| - 1];
      NumbersInFront(line, front);
      AppendLine([line] + front, last);
      AppendLine(front, last);
      assert [line] + lines == ([line] + front) + [last] && lines == front + [last];
      ConcatAssociative(LineNumbers(line), NumbersIn(front), LineNumbers(last));
    }
  }

  lemma AppendLine(lines: seq<string>, line: string)
    ensures NumbersIn(lines + [line]) == NumbersIn(lines) + LineNumbers(line)
  {
    assert (lines + [line])[..|lines|] == lines;
  }

  // The end of the first line of s + "\n" + t is the end of s, for any newline-free s.
  lemma {:induction false} LineEndOfTerminated(s: string, t: string)
    requires '\n' !in s
    ensures LineEnd(s + "\n" + t) == |s|
  {
    if s == "" {
      assert (s + "\n" + t)[0] == '\n';
    } else {
      assert s[0] in s;
      LineEndOfTerminated(s[1..], t);
      assert (s + "\n" + t)[1..] == s[1..] + "\n" + t;
    }
  }

  lemma ScanFirstLine(s: string, t: string)
    requires s != "" && AllDigits(s) && |s| < SCANNER_BUFFER
    ensures ScanLines(s + "\n" + t) == Scan([s] + ScanLines(t).lines, ScanLines(t).complete)
  {
    var text := s + "\n" + t;
    LineEndOfTerminated(s, t);
    assert text[..|s|] == s && text[|s| + 1..] == t;
    assert IsDigit(s[|s| - 1]);
  }

  lemma LineOfNumber(n: uint64)
    ensures LineNumbers(Digits(n as nat)) == [n]
  {
    ValueOfDigits(n as nat);
  }

  // Reading back printed numbers returns exactly those numbers, and no line overflows the buffer.
  lemma {:induction false} PrintParseRoundTrip(numbers: seq<uint64>)
    ensures ScanLines(PrintLines(numbers)).complete
    ensures NumbersIn(ScanLines(PrintLines(numbers)).lines) == numbers
  {
    if numbers == [] {
    } else {
      var n, t := numbers[0], PrintLines(numbers[1..]);
      PrintParseRoundTrip(numbers[1..]);
      WordFitsTwentyDigits(n);
      ScanFirstLine(Digits(n as nat), t);
      LineOfNumber(n);
      NumbersInFront(Digits(n as nat), ScanLines(t).lines);
      assert numbers == [n] + numbers[1..];
    }
  }

  // Printed texts are equal only for equal sequences.
  lemma PrintLinesInjective(m: seq<uint64>, n: seq<uint64>)
    requires PrintLines(m) == PrintLines(n)
    ensures m == n
  {
    PrintParseRoundTrip(m);
    PrintParseRoundTrip(n);
  }

  // ---------- Reading any text ----------

  // The lines, each followed by a newline.
  function Terminated(lines: seq<string>): string
  {
    if lines == [] then "" else lines[0] + "\n" + Terminated(lines[1..])
  }

  lemma TerminatedFirst(lines: seq<string>, t: string)
    requires lines != []
    ensures Terminated(lines) + t == lines[0] + "\n" + (Terminated(lines[1..]) + t)
  {
    ConcatAssociative(lines[0] + "\n", Terminated(lines[1..]), t);
  }

  // A line as it is scanned: without its carriage return, if it ends in one.
  predicate Scanned(line: string, result: string)
  {
    line == result + "\r" || (line == result && (result == "" || result[|result| - 1] != '\r'))
  }

  ghost predicate ScannedAll(lines: seq<string>, results: seq<string>)
  {
    |results| == |lines| && forall i :: 0 <= i < |lines| ==> Scanned(lines[i], results[i])
  }

  ghost predicate ShortLines(lines: seq<string>)
  {
    forall i :: 0 <= i < |lines| ==> '\n' !in lines[i] && |lines[i]| < 256
  }

  lemma DropIsScanned(line: string)
    ensures Scanned(line, DropCarriageReturn(line))
  {
    if line != "" && line[|line| - 1] == '\r' {
      assert line == line[..|line| - 1] + "\r";
    }
  }

  lemma ScanTerminatedLine(line: string, rest: string)
    requires '\n' !in line && |line| < 256
    ensures ScanLines(line + "\n" + rest)
         == Scan([DropCarriageReturn(line)] + ScanLines(rest).lines, ScanLines(rest).complete)
  {
    var text := line + "\n" + rest;
    LineEndOfTerminated(line, rest);
    assert text[..|line|] == line && text[|line| + 1..] == rest;
  }

  lemma {:induction false} LineEndOfLast(s: string)
    requires '\n' !in s
    ensures LineEnd(s) == |s|
  {
    if s != "" {
      assert s[0] in s;
      LineEndOfLast(s[1..]);
    }
  }

  lemma LastLineIsRead(last: string)
    requires '\n' !in last && |last| < 256
    ensures var scan := ScanLines(last); scan.complete && ScannedAll(if last == "" then [] else [last], scan.lines)
  {
    LineEndOfLast(last);
    assert last[..|last|] == last;
    DropIsScanned(last);
  }

  // One more line in front.
  lemma ScannedInFront(line: string, result: string, lines: seq<string>, results: seq<string>)
    requires Scanned(line, result) && ScannedAll(lines, results)
    ensures ScannedAll([line] + lines, [result] + results)
  {
    hide Scanned;
  }

  // Short lines are all read, whether or not the last one ends in a newline.
  lemma {:induction false} ShortLinesAreRead(lines: seq<string>, last: string)
    requires ShortLines(lines) && '\n' !in last && |last| < 256
    ensures var scan := ScanLines(Terminated(lines) + last);
      scan.complete && ScannedAll(lines + (if last == "" then [] else [last]), scan.lines)
  {
    var tail := if last == "" then [] else [last];
    if lines == [] {
      assert Terminated(lines) + last == last && lines + tail == tail;
      LastLineIsRead(last);
    } else {
      hide ScanLines, ScannedAll, Scanned, DropCarriageReturn, Terminated;
      var line, rest := lines[0], Terminated(lines[1..]) + last;
      ShortLinesAreRead(lines[1..], last);
      TerminatedFirst(lines, last);
      ScanTerminatedLine(line, rest);
      DropIsScanned(line);
      ScannedInFront(line, DropCarriageReturn(line), lines[1..] + tail, ScanLines(rest).lines);
      assert [line] + lines[1..] == lines;
      ConcatAssociative([line], lines[1..], tail);
    }
  }

  lemma {:induction false} LongPrefix(s: string, t: string)
    requires '\n' !in s
    ensures LineEnd(s + t) >= |s|
  {
    if s != "" {
      assert s[0] in s;
      LongPrefix(s[1..], t);
      assert (s + t)[1..] == s[1..] + t;
    }
  }

  // A line of 256 bytes or more ends the scan with an error, after exactly the lines before it.
  lemma {:induction false} LongLineEndsTheScan(lines: seq<string>, long: string, rest: string)
    requires ShortLines(lines) && '\n' !in long && |long| >= 256
    ensures var scan := ScanLines(Terminated(lines) + (long + rest));
      !scan.complete && ScannedAll(lines, scan.lines)
  {
    if lines == [] {
      assert Terminated(lines) + (long + rest) == long + rest;
      LongPrefix(long, rest);
    } else {
      hide ScanLines, ScannedAll, Scanned, DropCarriageReturn, Terminated;
      var line, tail := lines[0], Terminated(lines[1..]) + (long + rest);
      LongLineEndsTheScan(lines[1..], long, rest);
      TerminatedFirst(lines, long + rest);
      ScanTerminatedLine(line, tail);
      DropIsScanned(line);
      ScannedInFront(line, DropCarriageReturn(line), lines[1..], ScanLines(tail).lines);
      assert lines == [line] + lines[1..];
    }
  }

  // ---------- Reading any line ----------

  predicate Blanks(s: string)
  {
    forall i :: 0 <= i < |s| ==> s[i] in {' ', '\t', '\n', 11 as char, 12 as char, '\r'}
  }

  // Neither end of a word is blank.
  predicate Word(s: string)
  {
    s == "" || (!Blanks([s[0]]) && !Blanks([s[|s| - 1]]))
  }

  lemma SpaceIsBlank(c: char)
    ensures IsSpace(c) <==> Blanks([c])
  {
    assert [c][0] == c;
  }

  lemma {:induction false} TrimLeftBlanks(left: string, s: string)
    requires Blanks(left)
    ensures TrimLeft(left + s) == TrimLeft(s)
  {
    if left == "" {
      assert left + s == s;
    } else {
      SpaceIsBlank(left[0]);
      TrimLeftBlanks(left[1..], s);
      assert (left + s)[1..] == left[1..] + s;
    }
  }

  lemma {:induction false} TrimRightBlanks(s: string, right: string)
    requires Blanks(right)
    ensures TrimRight(s + right) == TrimRight(s)
  {
    if right == "" {
      assert s + right == s;
    } else {
      var front := right[..|right| - 1];
      SpaceIsBlank(right[|right| - 1]);
      TrimRightBlanks(s, front);
      assert (s + right)[..|s + right| - 1] == s + front;
    }
  }

  // Blanks around a word are trimmed, and nothing else.
  lemma TrimLaw(left: string, word: string, right: string)
    requires Blanks(left) && Blanks(right) && Word(word)
    ensures TrimSpace(left + (word + right)) == word
  {
    TrimLeftBlanks(left, word + right);
    if word == "" {
      assert word + right == right + "";
      TrimLeftBlanks(right, "");
    } else {
      SpaceIsBlank(word[0]);
      SpaceIsBlank(word[|word| - 1]);
      TrimRightBlanks(word, right);
      assert (word + right)[0] == word[0];
    }
  }

  function Zeros(z: nat): (s: string)
    ensures |s| == z && forall i :: 0 <= i < z ==> s[i] == '0'
  {
    seq(z, i => '0')
  }

  // The first digit counts for the power of ten at its place.
  lemma {:induction false} ValueOfFirst(c: char, s: string)
    requires IsDigit(c) && AllDigits(s)
    ensures AllDigits([c] + s) && Value([c] + s) == (c - '0') as nat * TenTo(|s|) + Value(s)
  {
    var all := [c] + s;
    if s == "" {
      assert all == [c] && all[..0] == "";
    } else {
      var front := s[..|s| - 1];
      ValueOfFirst(c, front);
      assert all[..|all| - 1] == [c] + front && all[|all| - 1] == s[|s| - 1];
      TenTimes((c - '0') as nat, TenTo(|front|));
    }
  }

  lemma TenTimes(x: nat, y: nat)
    ensures 10 * (x * y) == x * (10 * y)
  {
  }

  lemma {:induction false} LeadingZeros(z: nat, s: string)
    requires AllDigits(s)
    ensures AllDigits(Zeros(z) + s) && Value(Zeros(z) + s) == Value(s)
  {
    if z == 0 {
      assert Zeros(z) + s == s;
    } else {
      LeadingZeros(z - 1, s);
      ValueOfFirst('0', Zeros(z - 1) + s);
      assert Zeros(z) + s == ['0'] + (Zeros(z - 1) + s);
    }
  }

  // A line that holds a decimal numeral, with any blanks around it and any zeros before it, gives
  // its number if that fits in 64 bits, and nothing otherwise.
  lemma NumeralLine(left: string, z: nat, n: nat, right: string)
    requires Blanks(left) && Blanks(right)
    ensures LineNumbers(left + ((Zeros(z) + Digits(n)) + right)) ==
      if n < 0x1_0000_0000_0000_0000 then [n as uint64] else []
  {
    var word := Zeros(z) + Digits(n);
    LeadingZeros(z, Digits(n));
    ValueOfDigits(n);
    DigitsAreAWord(word);
    hide Value, Digits, Zeros, TrimSpace, Blanks, Word;
    TrimLaw(left, word, right);
  }

  lemma DigitsAreAWord(s: string)
    requires AllDigits(s)
    ensures Word(s)
  {
    if s != "" {
      assert IsDigit(s[0]) && IsDigit(s[|s| - 1]);
      assert [s[0]][0] == s[0] && [s[|s| - 1]][0] == s[|s| - 1];
    }
  }

  // Any other word gives nothing, and so does a blank line.
  lemma OtherLine(left: string, word: string, right: string)
    requires Blanks(left) && Blanks(right) && Word(word)
    requires word == "" || exists i :: 0 <= i < |word| && !('0' <= word[i] <= '9')
    ensures LineNumbers(left + (word + right)) == []
  {
    TrimLaw(left, word, right);
  }

  // These are all lines: every word of digits is a numeral with zeros before it.
  lemma {:induction false} EveryNumeral(s: string) returns (z: nat)
    requires s != "" && AllDigits(s)
    ensures s == Zeros(z) + Digits(Value(s))
  {
    if |s| == 1 {
      z := 0;
      assert s[..0] == "" && IsDigit(s[0]);
      assert Zeros(0) + Digits(Value(s)) == s;
    } else {
      var front, c := s[..|s| - 1], s[|s| - 1];
      z := EveryNumeral(front);
      var v := Value(front);
      assert s == front + [c] && IsDigit(c);
      if v == 0 {
        z := |front|;
        ZeroNumeral(front);
        assert Zeros(z) + Digits(Value(s)) == s;
      } else {
        assert Value(s) / 10 == v && Value(s) % 10 == (c - '0') as nat;
        assert Digits(Value(s)) == Digits(v) + [c];
      }
    }
  }

  lemma {:induction false} ZeroNumeral(s: string)
    requires AllDigits(s) && Value(s) == 0
    ensures s == Zeros(|s|)
  {
    if s != "" {
      ZeroNumeral(s[..|s| - 1]);
      assert IsDigit(s[|s| - 1]);
      assert s == s[..|s| - 1] + [s[|s| - 1]];
    }
  }
}
