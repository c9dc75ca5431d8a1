/** Validation of the user-supplied backtest parameters (the `InputData` validators).
    Each validator is a function of the raw field value (and, for dates, of today's
    date, which the program reads from the clock) that either returns the validated
    value or the exception the program raises. */
module InputData {

  const MinTickerLength := 1
  const MaxTickerLength := 5
  const MinDays := 1
  const MaxDays := 250
  const MinPct := 1
  const MaxPct := 100
  const DateLength := 8

  /** The value held by an input field: Python's None, an int, or a str. */
  datatype Field = Absent | IntField(i: int) | StrField(text: string)

  /** The exceptions a validator can raise. `ValueError` carries its message. */
  datatype Error = ValueError(message: string) | TypeError | AttributeError

  datatype Outcome<T> = Ok(value: T) | Err(error: Error)

  // ---------------------------------------------------------------------------
  // str(int): decimal digits, with a leading '-' for negative numbers
  // ---------------------------------------------------------------------------

  function DigitChar(d: nat): (r: char)
    requires d < 10
    ensures '0' <= r <= '9'
  {
    "0123456789"[d]
  }

  function NatToString(n: nat): (r: string)
    ensures |r| >= 1
    ensures forall k :: 0 <= k < |r| ==> '0' <= r[k] <= '9'
    decreases n
  {
    if n < 10 then [DigitChar(n)] else NatToString(n / 10) + [DigitChar(n % 10)]
  }

  /** str(i): a sign only for negative numbers, then digits. */
  function IntToString(i: int): (r: string)
    ensures |r| >= 1 && (r[0] == '-' <==> i < 0)
    ensures i >= 0 ==> '0' <= r[0] <= '9'
    ensures forall k :: 0 < k < |r| ==> '0' <= r[k] <= '9'
  {
    if i < 0 then "-" + NatToString(-i) else NatToString(i)
  }

  function Pow10(k: nat): (r: nat)
    ensures r >= 1
  {
    if k == 0 then 1 else 10 * Pow10(k - 1)
  }

  /** A decimal numeral has at most `k` digits exactly when the number is below 10^k. */
  lemma {:induction false} NatToStringLength(n: nat, k: nat)
    requires k >= 1
    ensures |NatToString(n)| <= k <==> n < Pow10(k)
    decreases n
  {
    if n >= 10 {
      if k == 1 {
        assert Pow10(1) == 10;
      } else {
        NatToStringLength(n / 10, k - 1);
        assert n < Pow10(k) <==> n / 10 < Pow10(k - 1);
      }
    } else {
      assert Pow10(k) >= 10 by { Pow10AtLeastTen(k); }
    }
  }

  lemma {:induction false} Pow10AtLeastTen(k: nat)
    requires k >= 1
    ensures Pow10(k) >= 10
  {
    if k > 1 { Pow10AtLeastTen(k - 1); }
  }

  function DigitValue(c: char): nat {
    if '0' <= c <= '9' then (c as int - '0' as int) as nat else 0
  }

  /** int(s) for a string of decimal digits. */
  function ParseDigits(s: string): nat {
    if |s| == 0 then 0 else 10 * ParseDigits(s[..|s| - 1]) + DigitValue(s[|s| - 1])
  }

  /** int(str(n)) == n. */
  lemma {:induction false} ParseNatToString(n: nat)
    ensures ParseDigits(NatToString(n)) == n
    decreases n
  {
    var s := NatToString(n);
    if n >= 10 {
      ParseNatToString(n / 10);
      assert s[..|s| - 1] == NatToString(n / 10);
    }
  }

  /** str(i) is 8 characters long exactly for the 8-digit non-negative numbers and
      for the 7-digit negative ones (the sign takes the eighth place). */
  lemma DateLengthCharacterization(i: int)
    ensures |IntToString(i)| == DateLength <==>
              (10000000 <= i <= 99999999) || (-9999999 <= i <= -1000000)
  {
    assert Pow10(7) == 10000000 && Pow10(8) == 100000000;
    if i < 0 {
      NatToStringLength(-i, 6);
      NatToStringLength(-i, 7);
      assert Pow10(6) == 1000000;
    } else {
      NatToStringLength(i, 7);
      NatToStringLength(i, 8);
    }
  }

  // ---------------------------------------------------------------------------
  // str.split(","), str.strip() and str.isalnum()
  // ---------------------------------------------------------------------------

  /** s.split(","): the pieces between the commas, empty pieces included. */
  function Split(s: string): (r: seq<string>)
    ensures |r| >= 1
  {
    if |s| == 0 then [""]
    else if s[0] == ',' then [""] + Split(s[1..])
    else
      var rest := Split(s[1..]);
      [[s[0]] + rest[0]] + rest[1..]
  }

  /** ",".join(pieces). */
  function Join(pieces: seq<string>): string
    requires |pieces| >= 1
  {
    if |pieces| == 1 then pieces[0] else pieces[0] + "," + Join(pieces[1..])
  }

  /** Splitting loses nothing: joining the pieces with commas gives the input back,
      and no piece contains a comma. */
  lemma {:induction false} SplitJoin(s: string)
    ensures Join(Split(s)) == s
    ensures forall k :: 0 <= k < |Split(s)| ==> ',' !in Split(s)[k]
  {
    if |s| > 0 {
      SplitJoin(s[1..]);
      var rest := Split(s[1..]);
      if s[0] == ',' {
        assert Split(s)[1..] == rest;
      } else {
        var r := Split(s);
        assert r[0] == [s[0]] + rest[0];
        if |rest| > 1 {
          assert r[1..] == rest[1..];
          assert Join(r) == [s[0]] + rest[0] + "," + Join(rest[1..]);
        }
        forall k | 0 <= k < |r| ensures ',' !in r[k] {
          if k > 0 { assert r[k] == rest[k]; }
        }
      }
    }
  }

  function CountComma(s: string): nat {
    if |s| == 0 then 0 else (if s[0] == ',' then 1 else 0) + CountComma(s[1..])
  }

  /** There is one piece more than there are commas. */
  lemma {:induction false} SplitCount(s: string)
    ensures |Split(s)| == CountComma(s) + 1
  {
    if |s| > 0 { SplitCount(s[1..]); }
  }

  /** The characters str.strip() removes (the ASCII ones). */
  predicate IsSpace(c: char) {
    c == ' ' || c == '\t' || c == '\n' || c == '\r' || c == '\U{B}' || c == '\U{C}'
    || ('\U{1C}' <= c <= '\U{1F}')
  }

  function StripLeft(s: string): (r: string)
    ensures |r| <= |s|
  {
    if |s| > 0 && IsSpace(s[0]) then StripLeft(s[1..]) else s
  }

  function StripRight(s: string): (r: string)
    ensures |r| <= |s|
  {
    if |s| > 0 && IsSpace(s[|s| - 1]) then StripRight(s[..|s| - 1]) else s
  }

  /** s.strip() */
  function Strip(s: string): (r: string)
    ensures |r| <= |s|
    ensures |s| > 0 && !IsSpace(s[0]) && !IsSpace(s[|s| - 1]) ==> r == s
  {
    StripRight(StripLeft(s))
  }

  /** strip() keeps a contiguous part of its input, drops only white space around it,
      and leaves no white space at either end. */
  lemma {:induction false} StripSpec(s: string)
    ensures var r := Strip(s);
      (exists i, j :: 0 <= i <= j <= |s| && r == s[i..j]
         && (forall k :: 0 <= k < i ==> IsSpace(s[k]))
         && (forall k :: j <= k < |s| ==> IsSpace(s[k])))
      && (|r| > 0 ==> !IsSpace(r[0]) && !IsSpace(r[|r| - 1]))
  {
    var i := StripLeftSpec(s);
    var t := s[i..];
    var j := StripRightSpec(t);
    var r := Strip(s);
    assert r == s[i..i + j];
    assert forall k :: i + j <= k < |s| ==> s[k] == t[k - i];
    if |r| > 0 {
      StripRightNoLeadingSpace(t);
    }
  }

  lemma {:induction false} StripLeftSpec(s: string) returns (i: nat)
    ensures i <= |s| && StripLeft(s) == s[i..]
    ensures forall k :: 0 <= k < i ==> IsSpace(s[k])
    ensures i < |s| ==> !IsSpace(s[i])
  {
    if |s| > 0 && IsSpace(s[0]) {
      var i' := StripLeftSpec(s[1..]);
      i := i' + 1;
      assert s[1..][i'..] == s[i..];
    } else {
      i := 0;
    }
  }

  lemma {:induction false} StripRightSpec(s: string) returns (j: nat)
    ensures j <= |s| && StripRight(s) == s[..j]
    ensures forall k :: j <= k < |s| ==> IsSpace(s[k])
    ensures j > 0 ==> !IsSpace(s[j - 1])
  {
    if |s| > 0 && IsSpace(s[|s| - 1]) {
      j := StripRightSpec(s[..|s| - 1]);
      assert s[..|s| - 1][..j] == s[..j];
    } else {
      j := |s|;
    }
  }

  /** When the input does not start with white space, neither does its right-strip. */
  lemma {:induction false} StripRightNoLeadingSpace(s: string)
    requires |s| == 0 || !IsSpace(s[0])
    ensures |StripRight(s)| > 0 ==> !IsSpace(StripRight(s)[0])
  {
    if |s| > 0 && IsSpace(s[|s| - 1]) {
      StripRightNoLeadingSpace(s[..|s| - 1]);
    }
  }

  predicate IsAlnumChar(c: char) {
    ('a' <= c <= 'z') || ('A' <= c <= 'Z') || ('0' <= c <= '9')
  }

  /** str.isalnum(): non-empty and every character a letter or a digit. */
  predicate IsAlnum(s: string)
    ensures IsAlnum(s) ==> Strip(s) == s && ',' !in s
  {
    |s| > 0 && forall k :: 0 <= k < |s| ==> IsAlnumChar(s[k])
  }

  // ---------------------------------------------------------------------------
  // get_tickers
  // ---------------------------------------------------------------------------

  const TickersMissing := "Tickers must be specified."
  const TickerNotAlnum := "Ticker must be a string of alphanumeric characters."
  const TickerBadLength := "Ticker must be between 1 to 5 characters long."

  predicate ValidTicker(t: string) {
    IsAlnum(t) && MinTickerLength <= |t| <= MaxTickerLength
  }

  /** The error raised for one ticker, checking alphanumeric first and length second. */
  function TickerError(t: string): (r: Outcome<()>)
    ensures r.Ok? <==> ValidTicker(t)
  {
    if !IsAlnum(t) then Err(ValueError(TickerNotAlnum))
    else if |t| > MaxTickerLength || |t| < MinTickerLength then Err(ValueError(TickerBadLength))
    else Ok(())
  }

  /** The loop over the stripped tickers: the first offending one raises. */
  function CheckTickers(ts: seq<string>): (r: Outcome<()>)
    ensures r.Err? ==> r.error == ValueError(TickerNotAlnum) || r.error == ValueError(TickerBadLength)
    ensures |ts| > 0 && !ValidTicker(ts[0]) ==> r.Err?
  {
    if |ts| == 0 then Ok(())
    else if TickerError(ts[0]).Err? then TickerError(ts[0])
    else CheckTickers(ts[1..])
  }

  function StripAll(pieces: seq<string>): (r: seq<string>)
    ensures |r| == |pieces|
  {
    seq(|pieces|, k requires 0 <= k < |pieces| => Strip(pieces[k]))
  }

  /** get_tickers: None raises the missing message, an int has no `split`, and a string
      is split on commas, each piece stripped and checked in order. */
  function GetTickers(tickers: Field): (r: Outcome<seq<string>>)
    ensures tickers.Absent? ==> r == Err(ValueError(TickersMissing))
    ensures tickers.IntField? ==> r == Err(AttributeError)
    ensures r.Ok? ==> tickers.StrField? && |r.value| == CountComma(tickers.text) + 1
  {
    match tickers
    case Absent => Err(ValueError(TickersMissing))
    case IntField(_) => Err(AttributeError)
    case StrField(s) =>
      SplitCount(s);
      var ts := StripAll(Split(s));
      match CheckTickers(ts)
      case Ok(_) => Ok(ts)
      case Err(e) => Err(e)
  }

  /** CheckTickers succeeds exactly when every ticker is valid. */
  lemma {:induction false} CheckTickersOk(ts: seq<string>)
    ensures CheckTickers(ts).Ok? <==> forall k :: 0 <= k < |ts| ==> ValidTicker(ts[k])
  {
    if |ts| > 0 {
      CheckTickersOk(ts[1..]);
      assert forall k :: 0 < k < |ts| ==> ts[k] == ts[1..][k - 1];
    }
  }

  /** When CheckTickers fails, it fails with the error of the first invalid ticker. */
  lemma {:induction false} CheckTickersFirstError(ts: seq<string>)
    ensures CheckTickers(ts).Err? ==>
      exists k :: 0 <= k < |ts| && !ValidTicker(ts[k])
        && (forall m :: 0 <= m < k ==> ValidTicker(ts[m]))
        && CheckTickers(ts) == TickerError(ts[k])
  {
    if |ts| > 0 && TickerError(ts[0]).Ok? && CheckTickers(ts[1..]).Err? {
      CheckTickersFirstError(ts[1..]);
      var k :| 0 <= k < |ts[1..]| && !ValidTicker(ts[1..][k])
        && (forall m :: 0 <= m < k ==> ValidTicker(ts[1..][m]))
        && CheckTickers(ts[1..]) == TickerError(ts[1..][k]);
      ValidPrefixShift(ts, k);
      assert ts[k + 1] == ts[1..][k];
    } else if |ts| > 0 && TickerError(ts[0]).Err? {
      assert CheckTickers(ts) == TickerError(ts[0]);
    }
  }

  lemma ValidPrefixShift(ts: seq<string>, k: nat)
    requires k < |ts| - 1 && ValidTicker(ts[0])
    requires forall m :: 0 <= m < k ==> ValidTicker(ts[1..][m])
    ensures forall m :: 0 <= m < k + 1 ==> ValidTicker(ts[m])
  {
    forall m | 0 < m < k + 1 ensures ValidTicker(ts[m]) {
      assert ts[m] == ts[1..][m - 1];
    }
  }

  /** get_tickers succeeds exactly when every stripped piece is a valid ticker, and then
      returns the stripped pieces in their input order. */
  lemma GetTickersOk(s: string)
    ensures GetTickers(StrField(s)).Ok? <==>
      forall k :: 0 <= k < |Split(s)| ==> ValidTicker(Strip(Split(s)[k]))
    ensures GetTickers(StrField(s)).Ok? ==>
      var r := GetTickers(StrField(s)).value;
      |r| == |Split(s)|
      && (forall k :: 0 <= k < |r| ==> r[k] == Strip(Split(s)[k]))
      && (forall k :: 0 <= k < |r| ==> IsAlnum(r[k]) && 1 <= |r[k]| <= 5)
  {
    var ts := StripAll(Split(s));
    CheckTickersOk(ts);
    assert GetTickers(StrField(s)).Ok? <==> CheckTickers(ts).Ok?;
    assert GetTickers(StrField(s)).Ok? ==> GetTickers(StrField(s)).value == ts;
    forall k | 0 <= k < |ts| ensures ts[k] == Strip(Split(s)[k]) {
    }
    if CheckTickers(ts).Ok? {
      forall k | 0 <= k < |Split(s)| ensures ValidTicker(Strip(Split(s)[k])) {
        assert ts[k] == Strip(Split(s)[k]);
      }
    } else {
      var k :| 0 <= k < |ts| && !ValidTicker(ts[k]);
      assert ts[k] == Strip(Split(s)[k]);
    }
  }

  /** An empty piece is not alphanumeric, so it raises the alphanumeric message; the
      length message is raised only for pieces longer than five characters. */
  lemma TickerErrorMessages(t: string)
    ensures t == "" ==> TickerError(t) == Err(ValueError(TickerNotAlnum))
    ensures TickerError(t) == Err(ValueError(TickerBadLength)) <==> IsAlnum(t) && |t| > MaxTickerLength
  {
  }

  // ---------------------------------------------------------------------------
  // get_beginning_date and get_ending_date
  // ---------------------------------------------------------------------------

  const BeginMissing := "Beginning date must be specified"
  const BeginNotInteger := "Beginning date must be an integer."
  const BeginBadFormat := "Beginning date must be in format YYYYMMDD."
  const BeginInFuture := "\n      Beginning date must be less than or equal to the current date."
  const EndBadFormat := "Ending date must be in format YYYYMMDD."
  const EndBeforeBegin := "Ending date must be greater than or equal to the beginning date."
  const EndInFuture := "Ending date must be less than or equal to the current date."

  /** int(DATE_TODAY): today's date written YYYYMMDD, read as a number. */
  predicate IsToday(today: int) {
    10000000 <= today <= 99999999
  }

  function GetBeginningDate(b: Field, today: int): (r: Outcome<string>)
    requires IsToday(today)
    ensures r.Ok? ==> b.IntField? && b.i <= today
    ensures r.Ok? ==> r.value == IntToString(b.i) && |r.value| == DateLength
  {
    match b
    case Absent => Err(ValueError(BeginMissing))
    case StrField(_) => Err(ValueError(BeginNotInteger))
    case IntField(i) =>
      if |IntToString(i)| != DateLength then Err(ValueError(BeginBadFormat))
      else if i > today then Err(ValueError(BeginInFuture))
      else Ok(IntToString(i))
  }

  /** get_beginning_date's checks, in their order: None, then not an int, then not
      eight characters, then after today; otherwise str(b). */
  lemma GetBeginningDateSpec(b: Field, today: int)
    requires IsToday(today)
    ensures b.Absent? ==> GetBeginningDate(b, today) == Err(ValueError(BeginMissing))
    ensures b.StrField? ==> GetBeginningDate(b, today) == Err(ValueError(BeginNotInteger))
    ensures b.IntField? ==>
      GetBeginningDate(b, today) ==
        if !((10000000 <= b.i <= 99999999) || (-9999999 <= b.i <= -1000000))
        then Err(ValueError(BeginBadFormat))
        else if b.i > today then Err(ValueError(BeginInFuture))
        else Ok(IntToString(b.i))
  {
    if b.IntField? { DateLengthCharacterization(b.i); }
  }

  /** A negative seven-digit number passes every check of get_beginning_date. */
  lemma NegativeBeginningDateAccepted(today: int)
    requires IsToday(today)
    ensures GetBeginningDate(IntField(-1234567), today) == Ok("-1234567")
  {
    GetBeginningDateSpec(IntField(-1234567), today);
    calc {
      IntToString(-1234567);
      "-" + NatToString(1234567);
      { DigitsOf1234567(); }
      "-1234567";
    }
  }

  lemma DigitsOf1234567()
    ensures NatToString(1234567) == "1234567"
  {
    DigitsOf12345();
    assert NatToString(123456) == NatToString(12345) + "6";
    assert NatToString(1234567) == NatToString(123456) + "7";
  }

  lemma DigitsOf12345()
    ensures NatToString(12345) == "12345"
  {
    DigitsOf123();
    assert NatToString(1234) == NatToString(123) + "4";
    assert NatToString(12345) == NatToString(1234) + "5";
  }

  lemma DigitsOf123()
    ensures NatToString(123) == "123"
  {
    assert NatToString(1) == "1";
    assert NatToString(12) == NatToString(1) + "2";
    assert NatToString(123) == NatToString(12) + "3";
  }

  /** Python's `<` on two strings: lexicographic order of the characters. */
  predicate StrLess(x: string, y: string) {
    if |x| == 0 then |y| > 0
    else if |y| == 0 then false
    else if x[0] != y[0] then x[0] < y[0]
    else StrLess(x[1..], y[1..])
  }

  /** The textual form str(e) of the field, where it has one. */
  function Text(f: Field): string
    requires !f.Absent?
  {
    match f
    case IntField(i) => IntToString(i)
    case StrField(s) => s
  }

  function GetEndingDate(e: Field, b: Field, today: int): (r: Outcome<string>)
    requires IsToday(today)
    ensures e.StrField? ==> r.Err?
    ensures r.Ok? && e.IntField? ==> b.IntField? && b.i <= e.i <= today && |r.value| == DateLength
  {
    if e.Absent? then Ok(IntToString(today))
    else if |Text(e)| != DateLength then Err(ValueError(EndBadFormat))
    else match (e, b)
      case (IntField(ei), IntField(bi)) =>
        if ei < bi then Err(ValueError(EndBeforeBegin))
        else if ei > today then Err(ValueError(EndInFuture))
        else Ok(IntToString(ei))
      case (StrField(es), StrField(bs)) =>
        // str < str compares; the next test, str > int, raises
        if StrLess(es, bs) then Err(ValueError(EndBeforeBegin)) else Err(TypeError)
      case _ => Err(TypeError)  // int < None, int < str, str < int and str < None raise
  }

  /** What get_ending_date guarantees when it returns: the default today, or an
      eight-character int date e with b <= e <= today. */
  lemma GetEndingDateOk(e: Field, b: Field, today: int)
    requires IsToday(today)
    requires GetEndingDate(e, b, today).Ok?
    ensures var r := GetEndingDate(e, b, today).value;
      (e.Absent? && r == IntToString(today))
      || (e.IntField? && b.IntField? && b.i <= e.i <= today && r == IntToString(e.i)
          && |r| == DateLength)
  {
  }

  /** get_ending_date's checks, in their order, for int fields: not eight characters,
      then before b, then after today. */
  lemma GetEndingDateErrors(e: int, b: int, today: int)
    requires IsToday(today)
    ensures GetEndingDate(IntField(e), IntField(b), today) ==
      if !((10000000 <= e <= 99999999) || (-9999999 <= e <= -1000000))
      then Err(ValueError(EndBadFormat))
      else if e < b then Err(ValueError(EndBeforeBegin))
      else if e > today then Err(ValueError(EndInFuture))
      else Ok(IntToString(e))
  {
    DateLengthCharacterization(e);
  }

  /** With no ending date the result is today's date, which is eight characters long. */
  lemma EndingDateDefault(b: Field, today: int)
    requires IsToday(today)
    ensures GetEndingDate(Absent, b, today) == Ok(IntToString(today))
    ensures |IntToString(today)| == DateLength
  {
    DateLengthCharacterization(today);
  }

  // ---------------------------------------------------------------------------
  // get_initial_aum, get_strategy_type, get_days, get_top_pct
  // ---------------------------------------------------------------------------

  const AumMissing := "Initial AUM must be specified."
  const AumNotInteger := "Initial AUM must be an integer."
  const AumNegative := "Initial AUM must be a positive integer."
  const StrategyNotString := "Strategy type must be a string."
  const StrategyUnknown := "Strategy type must be 'M' (momentum) or 'R' (reversal)."
  const DaysMissing := "Number of trading days must be specified."
  const DaysNotInteger := "Number of trading days must be an integer."
  const DaysOutOfRange := "Number of trading days must be between 1 to 250."
  const PctMissing := "Top percentage must be specified."
  const PctNotInteger := "Top percentage must be an integer."
  const PctOutOfRange := "Top percentage must be between 1 to 100."

  function GetInitialAum(a: Field): (r: Outcome<int>)
    ensures r.Ok? <==> a.IntField? && a.i >= 0
    ensures r.Ok? ==> r.value == a.i
    ensures a.Absent? ==> r == Err(ValueError(AumMissing))
    ensures a.StrField? ==> r == Err(ValueError(AumNotInteger))
    ensures a.IntField? && a.i < 0 ==> r == Err(ValueError(AumNegative))
  {
    match a
    case Absent => Err(ValueError(AumMissing))
    case StrField(_) => Err(ValueError(AumNotInteger))
    case IntField(i) => if i < 0 then Err(ValueError(AumNegative)) else Ok(i)
  }

  function UpperChar(c: char): char {
    if 'a' <= c <= 'z' then (c as int - 32) as char else c
  }

  /** str.upper() */
  function Upper(s: string): (r: string)
    ensures |r| == |s|
  {
    seq(|s|, k requires 0 <= k < |s| => UpperChar(s[k]))
  }

  function GetStrategyType(st: Field): (r: Outcome<string>)
    ensures r.Ok? ==> st.StrField? && r.value == st.text && |r.value| == 1
  {
    match st
    case StrField(s) =>
      if Upper(s) != "M" && Upper(s) != "R" then Err(ValueError(StrategyUnknown)) else Ok(s)
    case _ => Err(ValueError(StrategyNotString))
  }

  /** The strategy is accepted case-insensitively and returned exactly as given. */
  lemma GetStrategyTypeSpec(st: Field)
    ensures GetStrategyType(st).Ok? <==>
      st.StrField? && st.text in {"M", "m", "R", "r"}
    ensures GetStrategyType(st).Ok? ==> GetStrategyType(st).value == st.text
    ensures !st.StrField? ==> GetStrategyType(st) == Err(ValueError(StrategyNotString))
  {
    if st.StrField? {
      var s := st.text;
      if Upper(s) == "M" || Upper(s) == "R" {
        assert |s| == 1 && s == [s[0]];
        assert UpperChar(s[0]) == Upper(s)[0];
      }
    }
  }

  function GetDays(days: Field): (r: Outcome<int>)
    ensures r.Ok? <==> days.IntField? && MinDays <= days.i <= MaxDays
    ensures r.Ok? ==> r.value == days.i
    ensures days.Absent? ==> r == Err(ValueError(DaysMissing))
    ensures days.StrField? ==> r == Err(ValueError(DaysNotInteger))
    ensures days.IntField? && !(MinDays <= days.i <= MaxDays) ==> r == Err(ValueError(DaysOutOfRange))
  {
    match days
    case Absent => Err(ValueError(DaysMissing))
    case StrField(_) => Err(ValueError(DaysNotInteger))
    case IntField(i) =>
      if i < MinDays || i > MaxDays then Err(ValueError(DaysOutOfRange)) else Ok(i)
  }

  function GetTopPct(pct: Field): (r: Outcome<int>)
    ensures r.Ok? <==> pct.IntField? && MinPct <= pct.i <= MaxPct
    ensures r.Ok? ==> r.value == pct.i
    ensures pct.Absent? ==> r == Err(ValueError(PctMissing))
    ensures pct.StrField? ==> r == Err(ValueError(PctNotInteger))
    ensures pct.IntField? && !(MinPct <= pct.i <= MaxPct) ==> r == Err(ValueError(PctOutOfRange))
  {
    match pct
    case Absent => Err(ValueError(PctMissing))
    case StrField(_) => Err(ValueError(PctNotInteger))
    case IntField(i) =>
      if i < MinPct || i > MaxPct then Err(ValueError(PctOutOfRange)) else Ok(i)
  }
}
