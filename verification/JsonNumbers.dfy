/** Which texts the builder takes for numbers, told from the text alone, and what it makes of them. */
module JsonNumbers {
  import opened Wrappers
  import opened JsonValue
  import opened JsonBuilderModel
  import opened JsonChunks
  import opened JsonElements
  import opened JsonPrinter

  // ---- number texts ----------------------------------------------------------------------------

  predicate IsSign(c: char) { c == '-' || c == '+' }
  predicate IsExponent(c: char) { c == 'e' || c == 'E' }
  predicate IsMark(c: char) { c == '.' || IsExponent(c) }

  /** A point or an exponent has come: the number is a decimal. */
  predicate HasMark(s: string) { exists k :: 0 <= k < |s| && IsMark(s[k]) }

  predicate HasDigit(s: string) { exists k :: 0 <= k < |s| && IsDigit(s[k]) }

  /** An exponent has come, and no sign after it. */
  predicate AwaitsSign(s: string) {
    exists k :: 0 <= k < |s| && IsExponent(s[k]) && forall j :: k < j < |s| ==> !IsSign(s[j])
  }

  /** What may come after the beginning of a number: no digit after a zero at its start, after a minus only a digit, a
      point only before any other point or exponent, and a sign only at the start or once after an exponent. */
  predicate Continues(s: string, c: char) {
    if s == "" then IsSign(c) || IsDigit(c)
    else if IsDigit(c) then s != "0"
    else s != "-" && (IsExponent(c) || (c == '.' && !HasMark(s)) || (IsSign(c) && AwaitsSign(s)))
  }

  /** A number, or the beginning of one. */
  predicate IsNumberText(s: string) {
    s != "" && forall k :: 0 <= k < |s| ==> Continues(s[..k], s[k])
  }

  /** A decimal: an optional sign, digits, and a point or an exponent among them. */
  predicate IsDecimalText(s: string) { IsNumberText(s) && HasMark(s) }

  /** What a number text stands for; a plus sign alone stands for null. */
  function NumberOf(s: string): Json {
    if HasMark(s) then JDecimal(s) else if HasDigit(s) then JNumber(ReadInt(s)) else JNull
  }

  /** The builder of a number that has begun. */
  function NumberState(s: string): Builder {
    Num(Digits(if HasMark(s) then Decimal else if HasDigit(s) then Number else Numeric, !AwaitsSign(s), false, s), None)
  }

  // ---- reading them ----------------------------------------------------------------------------

  lemma MarksOfMore(s: string, c: char)
    ensures HasMark(s + [c]) <==> HasMark(s) || IsMark(c)
    ensures HasDigit(s + [c]) <==> HasDigit(s) || IsDigit(c)
  {
    var t := s + [c];
    assert t[|s|] == c && forall k :: 0 <= k < |s| ==> t[k] == s[k];
  }

  lemma AwaitsMore(s: string, c: char)
    ensures AwaitsSign(s + [c]) <==> IsExponent(c) || (AwaitsSign(s) && !IsSign(c))
  {
    var t := s + [c];
    assert t[|s|] == c && forall k :: 0 <= k < |s| ==> t[k] == s[k];
    if AwaitsSign(s) && !IsSign(c) {
      var k :| 0 <= k < |s| && IsExponent(s[k]) && forall j :: k < j < |s| ==> !IsSign(s[j]);
      assert IsExponent(t[k]);
    }
    if AwaitsSign(t) && !IsExponent(c) {
      var k :| 0 <= k < |t| && IsExponent(t[k]) && forall j :: k < j < |t| ==> !IsSign(t[j]);
      assert IsExponent(s[k]) && forall j :: k < j < |s| ==> !IsSign(t[j]);
    }
  }

  lemma NumberTextMore(s: string, c: char)
    requires s != ""
    ensures IsNumberText(s + [c]) <==> IsNumberText(s) && Continues(s, c)
  {
    hide Continues;
    var t := s + [c];
    assert t[..|s|] == s && t[|s|] == c;
    forall k | 0 <= k < |s| ensures t[..k] == s[..k] && t[k] == s[k] {}
  }

  /** A byte after the beginning of a number: it goes on, or ends, or is an error. */
  lemma NextByte(s: string, c: char)
    requires IsNumberText(s)
    ensures Consume(NumberState(s), c) ==
      if Continues(s, c) then More(NumberState(s + [c]))
      else if s != "-" && IsTerminator(c) then Done(Num(NumberState(s).digits.(buffer := ""), Some(NumberOf(s))), false)
      else Fail(InvalidChar)
  {
    hide HasMark, HasDigit, AwaitsSign, ReadInt, IsNumberText, NumericByte, Continues;
    NotEmpty(s);
    if IsDigit(c) { NextDigit(s, c); } else { NextOther(s, c); }
    NumberOfState(s);
  }

  lemma NumberOfState(s: string)
    requires IsNumberText(s)
    ensures NumericValue(NumberState(s).digits, None) == NumberOf(s)
  {
    hide IsNumberText, ReadInt, HasMark, HasDigit;
  }

  lemma NextDigit(s: string, c: char)
    requires IsNumberText(s) && IsDigit(c)
    ensures NumericByte(NumberState(s).digits, c)
      == if Continues(s, c) then Goes(NumberState(s + [c]).digits) else Bad(InvalidChar)
  {
    hide HasMark, HasDigit, AwaitsSign, IsNumberText;
    NotEmpty(s);
    MarksOfMore(s, c);
    AwaitsMore(s, c);
  }

  lemma NextOther(s: string, c: char)
    requires IsNumberText(s) && !IsDigit(c)
    ensures NumericByte(NumberState(s).digits, c) ==
      if Continues(s, c) then Goes(NumberState(s + [c]).digits)
      else if s != "-" && IsTerminator(c) then Ends(NumberState(s).digits) else Bad(InvalidChar)
  {
    hide HasMark, HasDigit, AwaitsSign, IsNumberText;
    NotEmpty(s);
    MarksOfMore(s, c);
    AwaitsMore(s, c);
    StartsRight(s);
  }

  lemma NotEmpty(s: string)
    requires IsNumberText(s)
    ensures s != ""
  {
  }

  /** Without a digit or a mark there is only the sign. */
  lemma {:induction false} StartsRight(s: string)
    requires IsNumberText(s)
    ensures !HasMark(s) && !HasDigit(s) ==> s == "-" || s == "+"
    ensures s == "-" || s == "+" ==> !HasMark(s) && !HasDigit(s)
    ensures AwaitsSign(s) ==> HasMark(s)
  {
    assert Continues(s[..0], s[0]);
    if |s| > 1 {
      assert Continues(s[..1], s[1]);
      assert !AwaitsSign(s[..1]);
      assert IsDigit(s[1]) || IsMark(s[1]);
    } else {
      assert s == [s[0]];
    }
  }

  /** A number text is taken whole. */
  lemma {:induction false} NumberRuns(s: string)
    requires IsNumberText(s)
    ensures Fold(Blank, s) == Running(NumberState(s))
    decreases |s|
  {
    hide Consume, Fold, Continues;
    var p, c := s[..|s| - 1], s[|s| - 1];
    assert s == p + [c];
    FoldOne(if p == "" then Blank else NumberState(p), c);
    if p == "" {
      FirstByte(c);
    } else {
      NumberTextMore(p, c);
      NumberRuns(p);
      NextByte(p, c);
      FoldConcat(Blank, p, [c]);
    }
  }

  lemma FoldOne(b: Builder, c: char)
    ensures Fold(b, [c]) == match Consume(b, c)
      case Fail(e) => Failed(e)
      case More(d) => Running(d)
      case Done(d, used) => Finished(d, if used then "" else [c])
  {
    assert [c][1..] == "";
  }

  lemma FirstByte(c: char)
    requires IsNumberText([c])
    ensures Consume(Blank, c) == More(NumberState([c]))
  {
    assert Continues([c][..0], [c][0]);
    assert [c][..0] == "";
    hide HasMark, HasDigit, AwaitsSign, IsNumberText, NumericByte;
    BeginsWith(c);
    FirstDigit(c);
  }

  lemma FirstDigit(c: char)
    ensures IsDigit(c) ==> NumericByte(DIGITS.(operate := true), c) == Goes(Digits(Number, true, false, [c]))
  {
    assert "" + [c] == [c];
  }

  lemma BeginsWith(c: char)
    requires IsSign(c) || IsDigit(c)
    ensures IsNumberText([c]) && !HasMark([c]) && !AwaitsSign([c]) && (HasDigit([c]) <==> IsDigit(c))
  {
    NotMarks(c);
    hide HasMark, HasDigit, AwaitsSign, IsNumberText, IsMark, IsExponent, IsDigit, IsSign;
    var s := "" + [c];
    assert s == [c];
    OneIsNumber([c]);
    MarksOfMore("", c);
    AwaitsMore("", c);
    NothingYet();
  }

  lemma NotMarks(c: char)
    requires IsSign(c) || IsDigit(c)
    ensures !IsMark(c) && !IsExponent(c)
  {
  }

  lemma OneIsNumber(s: string)
    requires |s| == 1 && (IsSign(s[0]) || IsDigit(s[0]))
    ensures IsNumberText(s)
  {
    assert s[..0] == "";
  }

  lemma NothingYet()
    ensures !HasMark("") && !HasDigit("") && !AwaitsSign("")
  {
  }

  /** The whole behaviour on numbers: the byte after a number text continues it, closes it as what it stands for, or is
      an error. */
  lemma NumberExactly(s: string, c: char, rest: string)
    requires IsNumberText(s)
    ensures var fed := Fold(Blank, s + ([c] + rest));
      if Continues(s, c) then fed == Fold(NumberState(s + [c]), rest)
      else if s != "-" && IsTerminator(c) then
        fed.Finished? && fed.rest == [c] + rest && Value(fed.b) == NumberOf(s) && Ready(fed.b)
      else fed == Failed(InvalidChar)
  {
    hide Consume, Continues, IsNumberText, NumberOf;
    NumberRuns(s);
    FoldConcat(Blank, s, [c] + rest);
    NextByte(s, c);
    assert ([c] + rest)[1..] == rest;
  }

  /** However it is cut, a number text is read as what it stands for. */
  lemma {:induction false} NumberParses(s: string, chunks: seq<string>)
    requires IsNumberText(s) && Flatten(chunks) == s
    ensures ParseAll(chunks) == Ok(NumberOf(s))
  {
    hide Fold, IsNumberText, HasMark, HasDigit, AwaitsSign, ReadInt;
    NumberRuns(s);
    ChunkIndependence(Blank, chunks);
  }

  lemma {:induction false} WhereItEnds(s: string) returns (k: nat)
    requires s != "" && (IsSign(s[0]) || IsDigit(s[0])) && !IsNumberText(s)
    ensures 0 < k < |s| && IsNumberText(s[..k]) && !Continues(s[..k], s[k])
    decreases |s|
  {
    hide Continues;
    var p := s[..|s| - 1];
    assert s == p + [s[|s| - 1]];
    if p == "" {
      OneIsNumber(s);
      assert false;
    } else {
      NumberTextMore(p, s[|s| - 1]);
      if IsNumberText(p) {
        k := |p|;
      } else {
        k := WhereItEnds(p);
        assert p[..k] == s[..k] && p[k] == s[k];
      }
    }
  }

  /** A text that begins like a number is read as a decimal with this text exactly when it is one. */
  lemma {:induction false} DecimalsExactly(s: string)
    requires s != "" && (IsSign(s[0]) || IsDigit(s[0]))
    ensures ParseAll([s]) == Ok(JDecimal(s)) <==> IsDecimalText(s)
  {
    hide Fold, IsNumberText, HasMark, HasDigit, AwaitsSign, ReadInt, Continues;
    OneChunkText(s);
    if IsNumberText(s) {
      NumberParses(s, [s]);
    } else {
      var k := WhereItEnds(s);
      assert s == s[..k] + ([s[k]] + s[k + 1..]);
      NumberExactly(s[..k], s[k], s[k + 1..]);
      assert s[..k] != s;
      ChunkIndependence(Blank, [s]);
    }
  }

  lemma OneChunkText(s: string)
    ensures Flatten([s]) == s && EndsInTime(Blank, [s])
  {
    assert [s][1..] == [] && [s][..0] == [] && s + "" == s;
  }

  // ---- numbers as JSON has them ----------------------------------------------------------------

  predicate AllDigits(s: string) {
    forall k :: 0 <= k < |s| ==> IsDigit(s[k])
  }

  /** Digits, the first of them zero only if it is the only one. */
  predicate IsWhole(ds: string) {
    ds != "" && AllDigits(ds) && (ds[0] == '0' ==> |ds| == 1)
  }

  lemma {:induction false} DigitsAppend(s: string, ds: string)
    requires IsNumberText(s) && AllDigits(ds) && (s == "0" ==> ds == "")
    ensures IsNumberText(s + ds) && (HasMark(s + ds) <==> HasMark(s)) && (AwaitsSign(s + ds) <==> AwaitsSign(s))
    ensures HasDigit(s + ds) <==> HasDigit(s) || ds != ""
    decreases |ds|
  {
    hide HasMark, HasDigit, AwaitsSign, IsNumberText;
    if ds == "" {
      assert s + ds == s;
    } else {
      var c := ds[0];
      assert s != "" by { NotEmpty(s); }
      NumberTextMore(s, c);
      MarksOfMore(s, c);
      AwaitsMore(s, c);
      assert s + [c] + ds[1..] == s + ds;
      DigitsAppend(s + [c], ds[1..]);
    }
  }

  /** An integer: an optional sign and digits. */
  lemma {:induction false} IntegerIsNumber(sign: string, ds: string)
    requires sign in ["", "-", "+"] && IsWhole(ds)
    ensures IsNumberText(sign + ds) && !HasMark(sign + ds) && HasDigit(sign + ds) && !AwaitsSign(sign + ds)
    ensures sign + ds != "-"
  {
    hide HasMark, HasDigit, AwaitsSign, IsNumberText;
    assert (sign + ds)[|sign|] == ds[0] && IsDigit(ds[0]) && !IsDigit('-');
    if sign == "" {
      BeginsWith(ds[0]);
      DigitsAppend([ds[0]], ds[1..]);
      assert [ds[0]] + ds[1..] == sign + ds;
    } else {
      BeginsWith(sign[0]);
      assert [sign[0]] == sign;
      DigitsAppend(sign, ds);
    }
  }

  /** A fraction: a point and digits, or nothing. */
  predicate IsFraction(t: string) { t == "" || (t[0] == '.' && AllDigits(t[1..])) }

  /** An exponent: its letter, an optional sign and digits, or nothing. */
  predicate IsPower(t: string) {
    t == "" || (IsExponent(t[0]) && AllDigits(if |t| > 1 && IsSign(t[1]) then t[2..] else t[1..]))
  }

  lemma {:induction false} FractionAppend(s: string, t: string)
    requires IsNumberText(s) && !HasMark(s) && s != "-" && IsFraction(t)
    ensures IsNumberText(s + t) && (HasMark(s + t) <==> t != "") && s + t != "-"
  {
    hide HasMark, HasDigit, AwaitsSign, IsNumberText;
    if t == "" {
      assert s + t == s;
    } else {
      NotEmpty(s);
      NumberTextMore(s, '.');
      MarksOfMore(s, '.');
      assert s + ['.'] + t[1..] == s + t;
      DigitsAppend(s + ['.'], t[1..]);
    }
  }

  lemma {:induction false} PowerAppend(s: string, t: string)
    requires IsNumberText(s) && s != "-" && IsPower(t)
    ensures IsNumberText(s + t) && (HasMark(s + t) <==> HasMark(s) || t != "")
  {
    hide HasMark, HasDigit, AwaitsSign, IsNumberText;
    if t == "" {
      assert s + t == s;
    } else {
      NotEmpty(s);
      var e := s + [t[0]];
      NumberTextMore(s, t[0]);
      MarksOfMore(s, t[0]);
      AwaitsMore(s, t[0]);
      if |t| > 1 && IsSign(t[1]) {
        assert e != "-";
        NumberTextMore(e, t[1]);
        MarksOfMore(e, t[1]);
        assert e + [t[1]] + t[2..] == s + t;
        DigitsAppend(e + [t[1]], t[2..]);
      } else {
        assert e + t[1..] == s + t;
        DigitsAppend(e, t[1..]);
      }
    }
  }

  /** Every number of JSON (RFC 8259, section 6) is a number text, and a decimal exactly when it has a fraction or an
      exponent; a plus sign in front, a point without digits after it and an exponent without any are taken too. */
  lemma {:induction false} JsonNumbersAreNumbers(sign: string, whole: string, fraction: string, power: string)
    requires sign in ["", "-", "+"] && IsWhole(whole) && IsFraction(fraction) && IsPower(power)
    ensures var s := sign + whole + fraction + power;
      IsNumberText(s) && (IsDecimalText(s) <==> fraction != "" || power != "")
  {
    hide HasMark, HasDigit, AwaitsSign, IsNumberText, IsFraction, IsPower, IsWhole;
    IntegerIsNumber(sign, whole);
    FractionAppend(sign + whole, fraction);
    PowerAppend(sign + whole + fraction, power);
  }

  // ---- integers --------------------------------------------------------------------------------

  lemma {:induction false} ShowNatDigits(n: nat)
    ensures IsWhole(ShowNat(n)) && (ShowNat(n)[0] == '0' ==> n == 0)
  {
    if n >= 10 {
      ShowNatDigits(n / 10);
    }
  }

  /** A printed number is ten times the number without its last digit, and that digit. */
  lemma ShownDigits(n: nat, d: nat)
    requires d < 10
    ensures ShowNat(10 * n + d) == (if n == 0 then "" else ShowNat(n)) + ["0123456789"[d]]
  {
    if n > 0 { assert (10 * n + d) / 10 == n && (10 * n + d) % 10 == d; }
    assert "" + [Digit(d)] == [Digit(d)];
  }

  lemma {:induction false} ReadDigitsAppend(s: string, c: char, acc: nat)
    requires AllDigits(s) && IsDigit(c)
    ensures ReadDigits(s + [c], acc) == 10 * ReadDigits(s, acc) + (c as int - '0' as int)
    decreases |s|
  {
    if s == "" {
      assert s + [c] == [c] && [c][1..] == "";
      assert ReadDigits([c], acc) == ReadDigits("", 10 * acc + (c as int - '0' as int));
    } else {
      assert (s + [c])[1..] == s[1..] + [c];
      ReadDigitsAppend(s[1..], c, 10 * acc + (s[0] as int - '0' as int));
    }
  }

  lemma {:induction false} ReadShowNat(n: nat)
    ensures ReadDigits(ShowNat(n), 0) == n
  {
    if n < 10 {
      assert ShowNat(n)[1..] == "";
      assert ReadDigits(ShowNat(n), 0) == ReadDigits("", n);
    } else {
      ReadShowNat(n / 10);
      ShowNatDigits(n / 10);
      ReadDigitsAppend(ShowNat(n / 10), Digit(n % 10), 0);
    }
  }

  function Saturated(n: int): int {
    if n > 9223372036854775807 then 9223372036854775807
    else if n < -9223372036854775808 then -9223372036854775808 else n
  }

  /** A printed integer, perhaps behind a plus sign, is read as itself, or as the nearest of 64 bits. */
  lemma ReadShowInt(n: int)
    ensures ReadInt(ShowInt(n)) == Saturated(n)
    ensures n >= 0 ==> ReadInt("+" + ShowInt(n)) == Saturated(n)
  {
    var m := if n < 0 then -n else n;
    ReadShowNat(m);
    ShowNatDigits(m);
    assert ("-" + ShowNat(m))[1..] == ShowNat(m) && ("+" + ShowNat(m))[1..] == ShowNat(m);
  }

  lemma ShowIntIsNumber(n: int)
    ensures IsNumberText(ShowInt(n)) && !HasMark(ShowInt(n)) && HasDigit(ShowInt(n)) && ShowInt(n) != "-"
  {
    var m := if n < 0 then -n else n;
    ShowNatDigits(m);
    hide HasMark, HasDigit, IsNumberText, IsWhole;
    assert "" + ShowNat(m) == ShowNat(m);
    IntegerIsNumber(if n < 0 then "-" else "", ShowNat(m));
  }

  /** However it is cut, a printed integer is read back, or as the nearest of 64 bits. */
  lemma IntegersComeBack(n: int, chunks: seq<string>)
    requires Flatten(chunks) == ShowInt(n)
    ensures ParseAll(chunks) == Ok(JNumber(Saturated(n)))
  {
    hide HasMark, HasDigit, IsNumberText;
    ShowIntIsNumber(n);
    NumberParses(ShowInt(n), chunks);
    ReadShowInt(n);
  }
}
