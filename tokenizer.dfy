/**
 * The path tokenizer of glyph.py (Glyph.__parse_svg_path) as a step function
 * over the scanner state, folded over the path text.
 *
 * Letters open segments, digits build a number, '-' marks it negative, '.'
 * moves to (further) decimal places, and any other character ends the
 * pending number by appending it to the last segment. Letters and digits
 * are the ASCII ones.
 */
module PathTokenizer {
  import opened Wrappers
  import opened Geometry
  import opened Segments

  predicate IsLetter(c: char)
  {
    'a' <= c <= 'z' || 'A' <= c <= 'Z'
  }

  predicate IsDigit(c: char)
  {
    '0' <= c <= '9'
  }

  /** A character that ends a pending number without opening a segment (space, comma, ...). */
  predicate IsSeparator(c: char)
  {
    !IsLetter(c) && !IsDigit(c) && c != '-' && c != '.'
  }

  /** int(c) for a decimal digit. */
  function DigitNat(c: char): (d: nat)
    requires IsDigit(c)
    ensures d <= 9
  {
    c as int - '0' as int
  }

  function DigitValue(c: char): real
    requires IsDigit(c)
  {
    DigitNat(c) as real
  }

  /** n * p, as n-fold addition. */
  function Times(n: nat, p: real): real
  {
    if n == 0 then 0.0 else Times(n - 1, p) + p
  }

  /** n-fold addition of p is the product n * p. */
  lemma {:induction false} TimesIsProduct(n: nat, p: real)
    ensures Times(n, p) == (n as real) * p
  {
    if n > 0 {
      TimesIsProduct(n - 1, p);
      assert (n as real) * p == ((n - 1) as real) * p + p;
    }
  }

  /**
   * The rolling state of the parser: the segments so far, the number being
   * built (last_num), the decimal step (floating_point), whether a digit has
   * been seen since the last flush (is_last_num), and the sign flag
   * (is_negative).
   */
  datatype Scanner = Scanner(lines: seq<Segment>, lastNum: real, fraction: nat, inNumber: bool, negative: bool)

  /** The state before the first character, over the segments already present. */
  function Fresh(lines: seq<Segment>): Scanner
  {
    Scanner(lines, 0.0, 0, false, false)
  }

  /** The pending number with its sign applied. */
  function SignedValue(sc: Scanner): real
  {
    if sc.negative then -sc.lastNum else sc.lastNum
  }

  /** ls with v appended to the coordinates of its last segment. */
  function AppendToLast(ls: seq<Segment>, v: real): (r: seq<Segment>)
    requires |ls| > 0
    ensures |r| == |ls| && r[..|ls| - 1] == ls[..|ls| - 1]
    ensures r[|ls| - 1] == ls[|ls| - 1].(points := ls[|ls| - 1].points + [v])
  {
    ls[|ls| - 1 := ls[|ls| - 1].(points := ls[|ls| - 1].points + [v])]
  }

  /**
   * Ending a pending number: pop the last segment, append the signed number
   * to it, push it back and reset the number state; popping an empty list is
   * an IndexError.
   */
  function Flush(sc: Scanner): (r: Result<Scanner, Error>)
    ensures r.Failure? <==> sc.lines == []
    ensures r.Failure? ==> r.error == IndexError
    // the signed number joins the last segment's coordinates; no other segment changes
    ensures r.Success? ==>
      |r.value.lines| == |sc.lines| && r.value.lines[..|sc.lines| - 1] == sc.lines[..|sc.lines| - 1]
    ensures r.Success? ==> var last := sc.lines[|sc.lines| - 1];
      r.value.lines[|sc.lines| - 1] == last.(points := last.points + [SignedValue(sc)])
    // and the number state starts afresh
    ensures r.Success? ==> r.value == Fresh(r.value.lines)
  {
    if sc.lines == [] then Failure(IndexError)
    else Success(Fresh(AppendToLast(sc.lines, SignedValue(sc))))
  }

  /** The state after one character. */
  function Step(sc: Scanner, c: char): (r: Result<Scanner, Error>)
    ensures r.Failure? <==> sc.inNumber && sc.lines == [] && (IsLetter(c) || IsSeparator(c))
    ensures r.Failure? ==> r.error == IndexError
    ensures r.Success? ==> |r.value.lines| == |sc.lines| + (if IsLetter(c) then 1 else 0)
  {
    if IsLetter(c) then
      var flushed := if sc.inNumber then Flush(sc) else Success(sc);
      if flushed.Failure? then flushed
      else Success(flushed.value.(lines := flushed.value.lines + [NewSegment(c)]))
    else if IsDigit(c) then
      var shifted := if sc.fraction == 0 then sc.lastNum * 10.0 else sc.lastNum;
      Success(sc.(lastNum := shifted + Times(DigitNat(c), Pow(0.1, sc.fraction)),
                  fraction := if sc.fraction > 0 then sc.fraction + 1 else 0,
                  inNumber := true))
    else if c == '-' then
      Success(sc.(negative := true))
    else if c == '.' then
      Success(sc.(fraction := sc.fraction + 1))
    else if sc.inNumber then
      Flush(sc)
    else
      Success(sc)
  }

  /** The state after a whole text, character by character; the first error stops the run. */
  function RunFrom(sc: Scanner, s: string): Result<Scanner, Error>
  {
    if |s| == 0 then Success(sc)
    else
      var prev := RunFrom(sc, s[..|s| - 1]);
      if prev.Failure? then prev else Step(prev.value, s[|s| - 1])
  }

  /** Glyph.__parse_svg_path on a glyph with no segments yet; a number still pending at the end is dropped. */
  function Tokenize(s: string): (r: Result<seq<Segment>, Error>)
    ensures r.Failure? ==> r.error == IndexError
    ensures r.Success? ==> Tags(r.value) == Letters(s)
  {
    var run := RunFrom(Fresh([]), s);
    if run.Failure? then
      RunFailsOnlyOnPop(Fresh([]), s);
      Failure(run.error)
    else
      LettersBecomeSegments(Fresh([]), s);
      Success(run.value.lines)
  }

  /** The only error the parser raises is the IndexError of popping an empty segment list. */
  lemma {:induction false} RunFailsOnlyOnPop(sc: Scanner, s: string)
    requires RunFrom(sc, s).Failure?
    ensures RunFrom(sc, s).error == IndexError
  {
    if |s| > 0 && RunFrom(sc, s[..|s| - 1]).Failure? {
      RunFailsOnlyOnPop(sc, s[..|s| - 1]);
    }
  }

  /** Running a concatenation runs the first part, then the second from where the first stopped. */
  lemma {:induction false} RunAppend(sc: Scanner, a: string, b: string)
    ensures RunFrom(sc, a + b) ==
      (var m := RunFrom(sc, a); if m.Failure? then m else RunFrom(m.value, b))
  {
    if |b| > 0 {
      assert (a + b)[..|a + b| - 1] == a + b[..|b| - 1];
      RunAppend(sc, a, b[..|b| - 1]);
      var m := RunFrom(sc, a);
      if m.Failure? {
        assert RunFrom(sc, a + b[..|b| - 1]) == m;
      }
    } else {
      assert a + b == a;
    }
  }

  /** Once a first part has run to state m, the rest runs from m. */
  lemma RunThen(sc: Scanner, a: string, b: string, m: Scanner)
    requires RunFrom(sc, a) == Success(m)
    ensures RunFrom(sc, a + b) == RunFrom(m, b)
  {
    RunAppend(sc, a, b);
  }

  /** An error in a prefix is the error of the whole text. */
  lemma FailureSticks(sc: Scanner, s: string, n: nat)
    requires n <= |s| && RunFrom(sc, s[..n]).Failure?
    ensures RunFrom(sc, s) == RunFrom(sc, s[..n])
  {
    RunAppend(sc, s[..n], s[n..]);
    assert s[..n] + s[n..] == s;
  }

  /** Running a single character is one step. */
  lemma RunOne(sc: Scanner, c: char)
    ensures RunFrom(sc, [c]) == Step(sc, c)
  {
    assert [c][..0] == [];
  }

  /** The letters of a text, in order. */
  function Letters(s: string): (r: string)
    ensures forall c :: c in r ==> IsLetter(c)
  {
    if |s| == 0 then []
    else Letters(s[..|s| - 1]) + (if IsLetter(s[|s| - 1]) then [s[|s| - 1]] else [])
  }

  /**
   * Segments appear in text order, one per letter: a successful run leaves
   * the segments it started with (their letters unchanged) followed by one
   * new segment per letter of the text.
   */
  lemma {:induction false} LettersBecomeSegments(sc: Scanner, s: string)
    requires RunFrom(sc, s).Success?
    ensures Tags(RunFrom(sc, s).value.lines) == Tags(sc.lines) + Letters(s)
  {
    if |s| > 0 {
      var p := s[..|s| - 1];
      var c := s[|s| - 1];
      LettersBecomeSegments(sc, p);
      var m := RunFrom(sc, p).value;
      StepTags(m, c);
    }
  }

  /** One character adds its letter to the tags when it is a letter, and changes no letter otherwise. */
  lemma StepTags(m: Scanner, c: char)
    requires Step(m, c).Success?
    ensures Tags(Step(m, c).value.lines) == Tags(m.lines) + (if IsLetter(c) then [c] else [])
  {
    var r := Step(m, c).value;
    if m.inNumber && (IsLetter(c) || IsSeparator(c)) {
      var f := Flush(m).value;
      assert Tags(f.lines) == Tags(m.lines);
      if IsLetter(c) {
        assert Tags(r.lines) == Tags(f.lines) + [c];
      }
    } else if IsLetter(c) {
      assert Tags(r.lines) == Tags(m.lines) + [c];
    }
  }

  predicate AllDigits(s: string)
  {
    forall i :: 0 <= i < |s| ==> IsDigit(s[i])
  }

  /** v followed by the digits ds, read left to right: v * 10^|ds| + the value of ds. */
  function Accumulate(v: real, ds: string): real
    requires AllDigits(ds)
  {
    if |ds| == 0 then v else Accumulate(v, ds[..|ds| - 1]) * 10.0 + DigitValue(ds[|ds| - 1])
  }

  /** The value of a digit string read as a whole number. */
  function IntegerValue(ds: string): real
    requires AllDigits(ds)
  {
    Accumulate(0.0, ds)
  }

  /** The sum of d_j * 0.1^(k + j) over the digits d_j of ds. */
  function FractionValue(ds: string, k: nat): real
    requires AllDigits(ds)
  {
    if |ds| == 0 then 0.0
    else FractionValue(ds[..|ds| - 1], k) + Times(DigitNat(ds[|ds| - 1]), Pow(0.1, k + |ds| - 1))
  }

  /** Before any '.', each digit gives v := v * 10 + d. */
  lemma {:induction false} IntegerDigits(sc: Scanner, ds: string)
    requires AllDigits(ds) && sc.fraction == 0
    ensures RunFrom(sc, ds) == Success(sc.(lastNum := Accumulate(sc.lastNum, ds), inNumber := sc.inNumber || |ds| > 0))
  {
    if |ds| > 0 {
      var p := ds[..|ds| - 1];
      assert AllDigits(p);
      IntegerDigits(sc, p);
      TimesIsProduct(DigitNat(ds[|ds| - 1]), 1.0);
    }
  }

  /** After the k-th decimal step, digit d adds d * 0.1^k and advances k. */
  lemma {:induction false} FractionDigits(sc: Scanner, ds: string)
    requires AllDigits(ds) && sc.fraction >= 1
    ensures RunFrom(sc, ds) == Success(sc.(lastNum := sc.lastNum + FractionValue(ds, sc.fraction),
                                           fraction := sc.fraction + |ds|,
                                           inNumber := sc.inNumber || |ds| > 0))
  {
    if |ds| > 0 {
      var p := ds[..|ds| - 1];
      assert AllDigits(p);
      FractionDigits(sc, p);
    }
  }

  /** Digits, '-' and '.' never touch the segments: only letters and separators do. */
  lemma {:induction false} NumberCharactersKeepLines(sc: Scanner, s: string)
    requires forall i :: 0 <= i < |s| ==> IsDigit(s[i]) || s[i] == '-' || s[i] == '.'
    ensures RunFrom(sc, s).Success? && RunFrom(sc, s).value.lines == sc.lines
  {
    if |s| > 0 {
      NumberCharactersKeepLines(sc, s[..|s| - 1]);
    }
  }

  function Sign(minus: bool): string
  {
    if minus then "-" else ""
  }

  /** The state after an optional '-' and the integer digits ip, from a clean number state. */
  lemma SignedInteger(lines: seq<Segment>, minus: bool, ip: string)
    requires AllDigits(ip)
    ensures RunFrom(Fresh(lines), Sign(minus) + ip) ==
      Success(Scanner(lines, IntegerValue(ip), 0, |ip| > 0, minus))
  {
    var s0 := Fresh(lines);
    var s1 := s0.(negative := minus);
    assert RunFrom(s0, Sign(minus)) == Success(s1) by {
      if minus {
        RunOne(s0, '-');
      }
    }
    IntegerDigits(s1, ip);
    RunThen(s0, Sign(minus), ip, s1);
  }

  /** The state after "[-]ip.fp", from a clean number state. */
  lemma SignedDecimal(lines: seq<Segment>, minus: bool, ip: string, fp: string)
    requires AllDigits(ip) && AllDigits(fp) && |ip| + |fp| > 0
    ensures RunFrom(Fresh(lines), Sign(minus) + ip + "." + fp) ==
      Success(Scanner(lines, IntegerValue(ip) + FractionValue(fp, 1), 1 + |fp|, true, minus))
  {
    var s0 := Fresh(lines);
    var s2 := Scanner(lines, IntegerValue(ip), 0, |ip| > 0, minus);
    var s3 := s2.(fraction := 1);
    SignedInteger(lines, minus, ip);
    RunOne(s2, '.');
    RunThen(s0, Sign(minus) + ip, ".", s2);
    FractionDigits(s3, fp);
    RunThen(s0, Sign(minus) + ip + ".", fp, s3);
  }

  /**
   * A decimal number "ip.fp" (optionally preceded by '-') followed by a
   * separator, read from a clean number state, appends
   * ±(value of ip + value of fp as decimals) to the last segment and resets
   * the number state.
   */
  lemma DecimalNumber(lines: seq<Segment>, minus: bool, ip: string, fp: string, sep: char)
    requires |lines| > 0 && AllDigits(ip) && AllDigits(fp) && |ip| + |fp| > 0 && IsSeparator(sep)
    ensures RunFrom(Fresh(lines), Sign(minus) + ip + "." + fp + [sep]) ==
      Success(Fresh(AppendToLast(lines, Signed(minus, IntegerValue(ip) + FractionValue(fp, 1)))))
  {
    var v := IntegerValue(ip) + FractionValue(fp, 1);
    var x := Sign(minus) + ip + "." + fp;
    var s4 := Scanner(lines, v, 1 + |fp|, true, minus);
    SignedDecimal(lines, minus, ip, fp);
    SeparatorFlushes(Fresh(lines), x, sep, s4);
    assert SignedValue(s4) == Signed(minus, v);
  }

  /**
   * A separator ends a pending number: it is appended, signed, to the last
   * segment and the number state is reset.
   */
  lemma SeparatorFlushes(sc: Scanner, x: string, sep: char, st: Scanner)
    requires RunFrom(sc, x) == Success(st) && st.inNumber && |st.lines| > 0 && IsSeparator(sep)
    ensures RunFrom(sc, x + [sep]) == Success(Fresh(AppendToLast(st.lines, SignedValue(st))))
  {
    RunOne(st, sep);
    RunThen(sc, x, [sep], st);
  }

  /**
   * A letter after a pending number first flushes it onto the last segment,
   * with its sign, and only then opens a new segment with no coordinates.
   */
  lemma LetterFlushes(sc: Scanner, x: string, c: char, st: Scanner)
    requires RunFrom(sc, x) == Success(st) && st.inNumber && |st.lines| > 0 && IsLetter(c)
    ensures RunFrom(sc, x + [c]) ==
      Success(Fresh(AppendToLast(st.lines, SignedValue(st)) + [NewSegment(c)]))
  {
    RunOne(st, c);
    RunThen(sc, x, [c], st);
  }

  /**
   * A letter with no number pending only opens a new segment: the earlier
   * segments, the sign flag and the decimal place carry over.
   */
  lemma LetterOpensSegment(sc: Scanner, x: string, c: char, st: Scanner)
    requires RunFrom(sc, x) == Success(st) && !st.inNumber && IsLetter(c)
    ensures RunFrom(sc, x + [c]) == Success(st.(lines := st.lines + [NewSegment(c)]))
  {
    RunOne(st, c);
    RunThen(sc, x, [c], st);
  }

  function Signed(minus: bool, v: real): real
  {
    if minus then -v else v
  }

  /** The digit strings used in the examples below, read as whole numbers. */
  lemma SmallIntegers()
    ensures IntegerValue("12") == 12.0 && IntegerValue("10") == 10.0 && IntegerValue("20") == 20.0
  {
    assert "12"[..1] == "1" && "10"[..1] == "1" && "20"[..1] == "2";
    assert "1"[..0] == "" && "2"[..0] == "";
  }

  /** A number flushed onto a lone fresh segment becomes its only coordinate. */
  lemma AppendToSingle(c: char, v: real)
    ensures AppendToLast([NewSegment(c)], v) == [Segment(c, [v], None, None, None)]
  {
    var r := AppendToLast([NewSegment(c)], v);
    assert [] + [v] == [v];
    assert r[0] == Segment(c, [v], None, None, None);
  }

  /** "M" opens one segment. */
  lemma OpenM()
    ensures RunFrom(Fresh([]), "M") == Success(Fresh([NewSegment('M')]))
  {
    RunOne(Fresh([]), 'M');
    assert [] + [NewSegment('M')] == [NewSegment('M')];
  }

  /** "M12.5 " gives one M segment holding 12.5. */
  lemma TwelveAndAHalf()
    ensures Tokenize("M12.5 ") == Success([Segment('M', [12.5], None, None, None)])
  {
    var m := [NewSegment('M')];
    var rest := Sign(false) + "12" + "." + "5" + [' '];
    OpenM();
    DecimalNumber(m, false, "12", "5", ' ');
    RunThen(Fresh([]), "M", rest, Fresh(m));
    assert "M" + rest == "M12.5 ";
    SmallIntegers();
    assert FractionValue("5", 1) == 0.5 by {
      assert "5"[..0] == "";
      assert Pow(0.1, 1) == 0.1;
      TimesIsProduct(5, 0.1);
    }
    assert Signed(false, IntegerValue("12") + FractionValue("5", 1)) == 12.5;
    AppendToSingle('M', 12.5);
    assert RunFrom(Fresh([]), "M12.5 ") == Success(Fresh([Segment('M', [12.5], None, None, None)]));
  }

  /** "M1.2." reads as 1.2 with the next digit at the third decimal place. */
  lemma ReadThroughSecondPoint()
    ensures RunFrom(Fresh([]), "M1.2.") == Success(Scanner([NewSegment('M')], 1.2, 3, true, false))
  {
    var m := [NewSegment('M')];
    var s2 := Scanner(m, IntegerValue("1") + FractionValue("2", 1), 2, true, false);
    OpenM();
    assert RunFrom(Fresh([]), "M1.2") == Success(s2) by {
      SignedDecimal(m, false, "1", "2");
      RunThen(Fresh([]), "M", Sign(false) + "1" + "." + "2", Fresh(m));
      assert "M" + (Sign(false) + "1" + "." + "2") == "M1.2";
    }
    assert IntegerValue("1") == 1.0 && FractionValue("2", 1) == 0.2 by {
      assert "1"[..0] == "" && "2"[..0] == "";
      assert Pow(0.1, 1) == 0.1;
      TimesIsProduct(2, 0.1);
      TimesIsProduct(1, 1.0);
    }
    RunOne(s2, '.');
    RunThen(Fresh([]), "M1.2", ".", s2);
    assert "M1.2" + "." == "M1.2.";
  }

  /** The digit after the second '.' lands at the third decimal place. */
  lemma ReadAfterSecondPoint()
    ensures RunFrom(Fresh([]), "M1.2.5") == Success(Scanner([NewSegment('M')], 1.205, 4, true, false))
  {
    var s3 := Scanner([NewSegment('M')], 1.2, 3, true, false);
    ReadThroughSecondPoint();
    FractionDigits(s3, "5");
    assert FractionValue("5", 3) == 0.005 by {
      assert "5"[..0] == "";
      assert Pow(0.1, 3) == 0.001;
      TimesIsProduct(5, 0.001);
    }
    RunThen(Fresh([]), "M1.2.", "5", s3);
    assert "M1.2." + "5" == "M1.2.5";
  }

  /** A second '.' only moves one decimal place further: "M1.2.5 " gives 1.205. */
  lemma SecondPointSkipsPlace()
    ensures Tokenize("M1.2.5 ") == Success([Segment('M', [1.205], None, None, None)])
  {
    ReadAfterSecondPoint();
    SeparatorFlushes(Fresh([]), "M1.2.5", ' ', Scanner([NewSegment('M')], 1.205, 4, true, false));
    assert "M1.2.5" + [' '] == "M1.2.5 ";
    AppendToSingle('M', 1.205);
  }

  /** A '-' never ends a number: "M10-20 " gives the single value -1020. */
  lemma MinusDoesNotSplit()
    ensures Tokenize("M10-20 ") == Success([Segment('M', [-1020.0], None, None, None)])
  {
    var m := [NewSegment('M')];
    var s1 := Fresh(m);
    var s2 := s1.(lastNum := 10.0, inNumber := true);
    // the '-' only sets the sign flag; the digits after it extend the same number
    var s3 := s2.(negative := true);
    var s4 := s3.(lastNum := 1020.0);
    SmallIntegers();
    OpenM();
    assert RunFrom(Fresh([]), "M10") == Success(s2) by {
      IntegerDigits(s1, "10");
      RunThen(Fresh([]), "M", "10", s1);
      assert "M" + "10" == "M10";
    }
    assert RunFrom(Fresh([]), "M10-") == Success(s3) by {
      RunOne(s2, '-');
      RunThen(Fresh([]), "M10", "-", s2);
      assert "M10" + "-" == "M10-";
    }
    assert RunFrom(Fresh([]), "M10-20") == Success(s4) by {
      IntegerDigits(s3, "20");
      assert Accumulate(10.0, "20") == 1020.0 by {
        assert "20"[..1] == "2" && "2"[..0] == "";
      }
      RunThen(Fresh([]), "M10-", "20", s3);
      assert "M10-" + "20" == "M10-20";
    }
    SeparatorFlushes(Fresh([]), "M10-20", ' ', s4);
    assert "M10-20" + [' '] == "M10-20 ";
    AppendToSingle('M', -1020.0);
  }

  /** A number still pending when the text ends is dropped: "M5" gives an M with no coordinates. */
  lemma PendingNumberDropped()
    ensures Tokenize("M5") == Success([NewSegment('M')])
  {
    var m := [NewSegment('M')];
    OpenM();
    NumberCharactersKeepLines(Fresh(m), "5");
    RunThen(Fresh([]), "M", "5", Fresh(m));
    assert "M" + "5" == "M5";
  }

  /** Some digit of s comes before some separator of s. */
  predicate DigitBeforeSeparator(s: string)
  {
    exists i, j :: 0 <= i < j < |s| && IsDigit(s[i]) && IsSeparator(s[j])
  }

  predicate HasDigit(s: string)
  {
    exists i :: 0 <= i < |s| && IsDigit(s[i])
  }

  /**
   * Before any letter there is no segment to pop: a text without letters
   * fails, with an IndexError, exactly when a digit is followed by a
   * separator; otherwise it yields no segments.
   */
  lemma {:induction false} NoLetterRun(s: string)
    requires forall i :: 0 <= i < |s| ==> !IsLetter(s[i])
    ensures RunFrom(Fresh([]), s).Failure? <==> DigitBeforeSeparator(s)
    ensures RunFrom(Fresh([]), s).Failure? ==> RunFrom(Fresh([]), s).error == IndexError
    ensures RunFrom(Fresh([]), s).Success? ==>
      RunFrom(Fresh([]), s).value.lines == [] && RunFrom(Fresh([]), s).value.inNumber == HasDigit(s)
  {
    if |s| > 0 {
      var p := s[..|s| - 1];
      var c := s[|s| - 1];
      NoLetterRun(p);
      var m := RunFrom(Fresh([]), p);
      if m.Failure? {
        var i, j :| 0 <= i < j < |p| && IsDigit(p[i]) && IsSeparator(p[j]);
        assert s[i] == p[i] && s[j] == p[j];
      } else {
        if DigitBeforeSeparator(s) {
          var i, j :| 0 <= i < j < |s| && IsDigit(s[i]) && IsSeparator(s[j]);
          assert j == |p|;
          assert HasDigit(p) by {
            assert p[i] == s[i];
          }
        } else {
          assert !(HasDigit(p) && IsSeparator(c));
        }
        if HasDigit(s) && !IsDigit(c) {
          var i :| 0 <= i < |s| && IsDigit(s[i]);
          assert i < |p| && p[i] == s[i];
        }
        if HasDigit(p) {
          var i :| 0 <= i < |p| && IsDigit(p[i]);
          assert s[i] == p[i];
        }
      }
    }
  }
}
