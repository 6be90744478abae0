/**
 * The text of a time in a job record: a number of seconds with six decimals,
 * stripped of zeros at both ends, and Python's `float` of it. Times are whole
 * numbers of microseconds.
 */
module TimeText {
  import opened Wrappers
  import opened Text

  const MICROS: nat := 1_000_000

  const ZEROS := {'0'}

  function Digit(n: nat): char
    requires n < 10
  {
    '0' + n as char
  }

  /** The decimal digits of a number. */
  function Digits(n: nat): string {
    if n < 10 then [Digit(n)] else Digits(n / 10) + [Digit(n % 10)]
  }

  /** The last `k` decimal digits of a number. */
  function LastDigits(n: nat, k: nat): (s: string)
    ensures |s| == k
  {
    if k == 0 then "" else LastDigits(n / 10, k - 1) + [Digit(n % 10)]
  }

  /** `"{:.6f}".format(f)` */
  function Format(us: int): string {
    if us < 0 then "-" + FormatUnsigned(0 - us) else FormatUnsigned(us)
  }

  function FormatUnsigned(us: nat): string {
    Digits(us / MICROS) + "." + LastDigits(us % MICROS, 6)
  }

  /** `_float_str` */
  function Encode(us: int): string {
    StripRight(StripLeft(Format(us), ZEROS), ZEROS)
  }

  function NumberOf(s: string): nat
    requires AreDigits(s)
  {
    if s == "" then 0 else 10 * NumberOf(s[..|s| - 1]) + (s[|s| - 1] - '0') as nat
  }

  function Power10(k: nat): (p: nat)
    ensures p > 0
  {
    if k == 0 then 1 else 10 * Power10(k - 1)
  }

  /** `float(s)` in microseconds, for a decimal with at most six decimals; none where it raises ValueError. */
  function Decode(s: string): Option<int> {
    if s != "" && s[0] == '-' then
      match DecodeUnsigned(s[1..])
      case None => None
      case Some(n) => Some(0 - n)
    else
      match DecodeUnsigned(s)
      case None => None
      case Some(n) => Some(0 + n)
  }

  function DecodeUnsigned(s: string): Option<nat> {
    var dot := FirstDot(s);
    var whole := s[..dot];
    var decimals := if dot < |s| then s[dot + 1..] else "";
    if !AreDigits(whole) || !AreDigits(decimals) || |decimals| > 6 || (whole == "" && decimals == "") then None
    else Some(ValueOf(whole, decimals))
  }

  function ValueOf(whole: string, decimals: string): nat
    requires AreDigits(whole) && AreDigits(decimals) && |decimals| <= 6
  {
    NumberOf(whole) * MICROS + NumberOf(decimals) * Power10(6 - |decimals|)
  }

  lemma {:induction false} DigitsRead(n: nat)
    ensures AreDigits(Digits(n)) && NumberOf(Digits(n)) == n
    ensures Digits(n) != "" && (Digits(n)[0] == '0' ==> n == 0 && Digits(n) == "0")
  {
    if n < 10 {
      assert Digits(n)[..0] == "";
    } else {
      DigitsRead(n / 10);
      assert Digits(n)[..|Digits(n)| - 1] == Digits(n / 10);
    }
  }

  /** A number without a dot is a number of seconds. */
  lemma WholeDecodes(n: nat)
    ensures Decode(Digits(n)) == Some(n * MICROS)
  {
    DigitsRead(n);
    assert FirstDot(Digits(n)) == |Digits(n)|;
    assert Digits(n)[..|Digits(n)|] == Digits(n);
    assert '0' <= Digits(n)[0] <= '9';
  }

  lemma {:induction false} LastDigitsRead(n: nat, k: nat)
    requires n < Power10(k)
    ensures AreDigits(LastDigits(n, k)) && NumberOf(LastDigits(n, k)) == n
  {
    if k > 0 {
      LastDigitsRead(n / 10, k - 1);
      assert LastDigits(n, k)[..k - 1] == LastDigits(n / 10, k - 1);
    }
  }

  lemma {:induction false} StripRightRead(s: string)
    requires AreDigits(s)
    ensures AreDigits(StripRight(s, ZEROS)) && |StripRight(s, ZEROS)| <= |s|
    ensures NumberOf(s) == NumberOf(StripRight(s, ZEROS)) * Power10(|s| - |StripRight(s, ZEROS)|)
    ensures StripRight(s, ZEROS) != "" ==> NumberOf(StripRight(s, ZEROS)) != 0
  {
    if s != "" && s[|s| - 1] == '0' {
      var t := s[..|s| - 1];
      StripRightRead(t);
      var k := |t| - |StripRight(t, ZEROS)|;
      assert Power10(k + 1) == 10 * Power10(k);
      TimesTen(NumberOf(StripRight(t, ZEROS)), Power10(k));
    }
  }

  lemma TimesTen(a: nat, b: nat)
    ensures 10 * (a * b) == a * (10 * b)
  {
  }

  /** Stripping the text strips its whole part on the left and its decimals on the right. */
  lemma {:induction false} StripText(whole: string, decimals: string)
    ensures StripRight(whole + "." + decimals, ZEROS) == whole + "." + StripRight(decimals, ZEROS)
    decreases |decimals|
  {
    var text := whole + "." + decimals;
    if decimals != "" && decimals[|decimals| - 1] == '0' {
      assert text[..|text| - 1] == whole + "." + decimals[..|decimals| - 1];
      StripText(whole, decimals[..|decimals| - 1]);
    }
  }

  lemma {:induction false} StripLeftStops(s: string, rest: string)
    requires rest != "" && rest[0] != '0'
    ensures StripLeft(s + rest, ZEROS) == StripLeft(s, ZEROS) + rest
  {
    if s == "" {
      assert s + rest == rest;
    } else if s[0] == '0' {
      assert (s + rest)[1..] == s[1..] + rest;
      StripLeftStops(s[1..], rest);
    }
  }

  lemma DotAfterWhole(whole: string, decimals: string)
    requires AreDigits(whole)
    ensures FirstDot(whole + "." + decimals) == |whole|
  {
    var s := whole + "." + decimals;
    assert s[|whole|] == '.';
    assert forall k :: 0 <= k < |whole| ==> s[k] == whole[k];
  }

  lemma DecodeParts(whole: string, decimals: string)
    requires AreDigits(whole) && AreDigits(decimals) && |decimals| <= 6
    ensures DecodeUnsigned(whole + "." + decimals) ==
      if whole == "" && decimals == "" then None else Some(ValueOf(whole, decimals))
  {
    var s := whole + "." + decimals;
    DotAfterWhole(whole, decimals);
    assert s[..|whole|] == whole;
    assert s[|whole| + 1..] == decimals;
  }

  /** The whole part as it is printed: nothing for zero. */
  function Whole(us: nat): string {
    if us / MICROS == 0 then "" else Digits(us / MICROS)
  }

  function Decimals(us: nat): string {
    StripRight(LastDigits(us % MICROS, 6), ZEROS)
  }

  lemma Stripped(whole: string, decimals: string)
    ensures StripRight(StripLeft(whole + "." + decimals, ZEROS), ZEROS) ==
      StripLeft(whole, ZEROS) + "." + StripRight(decimals, ZEROS)
  {
    assert whole + "." + decimals == whole + ("." + decimals);
    StripLeftStops(whole, "." + decimals);
    assert StripLeft(whole, ZEROS) + ("." + decimals) == StripLeft(whole, ZEROS) + "." + decimals;
    StripText(StripLeft(whole, ZEROS), decimals);
  }

  lemma WholeStripped(n: nat)
    ensures StripLeft(Digits(n), ZEROS) == if n == 0 then "" else Digits(n)
  {
    DigitsRead(n);
    if n == 0 {
      assert Digits(n) == "0" && "0"[1..] == "";
    }
  }

  lemma EncodeUnsigned(us: nat)
    ensures Encode(us) == Whole(us) + "." + Decimals(us)
  {
    Stripped(Digits(us / MICROS), LastDigits(us % MICROS, 6));
    WholeStripped(us / MICROS);
  }

  lemma EncodeNegative(us: nat)
    requires us > 0
    ensures Encode(0 - us) == "-" + (Digits(us / MICROS) + "." + Decimals(us))
  {
    var n, decimals := Digits(us / MICROS), LastDigits(us % MICROS, 6);
    Stripped("-" + n, decimals);
    MinusFirst(n, decimals);
    MinusFirst(n, StripRight(decimals, ZEROS));
  }

  lemma MinusFirst(n: string, decimals: string)
    ensures ("-" + n) + "." + decimals == "-" + (n + "." + decimals)
    ensures StripLeft("-" + n, ZEROS) == "-" + n
  {
  }

  lemma DecimalsRead(us: nat)
    ensures AreDigits(Decimals(us)) && |Decimals(us)| <= 6
    ensures NumberOf(Decimals(us)) * Power10(6 - |Decimals(us)|) == us % MICROS
    ensures Decimals(us) == "" <==> us % MICROS == 0
  {
    assert Power10(3) == 1000;
    assert Power10(6) == MICROS;
    LastDigitsRead(us % MICROS, 6);
    StripRightRead(LastDigits(us % MICROS, 6));
    if Decimals(us) != "" {
      Positive(NumberOf(Decimals(us)), Power10(6 - |Decimals(us)|));
    }
  }

  lemma WholeRead(us: nat)
    ensures AreDigits(Whole(us)) && NumberOf(Whole(us)) == us / MICROS
    ensures Whole(us) == "" <==> us / MICROS == 0
  {
    DigitsRead(us / MICROS);
  }

  lemma Positive(a: nat, b: nat)
    requires a > 0 && b > 0
    ensures a * b > 0
  {
  }

  lemma ValueIs(whole: string, decimals: string, q: nat, r: nat)
    requires AreDigits(whole) && AreDigits(decimals) && |decimals| <= 6
    requires NumberOf(whole) == q && NumberOf(decimals) * Power10(6 - |decimals|) == r
    ensures ValueOf(whole, decimals) == q * MICROS + r
  {
  }

  lemma DivMod(us: nat)
    ensures us / MICROS * MICROS + us % MICROS == us
  {
  }

  lemma PartsAddUp(us: nat, whole: string)
    requires AreDigits(whole) && NumberOf(whole) == us / MICROS
    ensures DecodeUnsigned(whole + "." + Decimals(us)) ==
      if whole == "" && Decimals(us) == "" then None else Some(us)
  {
    DecimalsRead(us);
    DecodeParts(whole, Decimals(us));
    PartsValue(us, whole, Decimals(us));
  }

  lemma PartsValue(us: nat, whole: string, decimals: string)
    requires AreDigits(whole) && AreDigits(decimals) && |decimals| <= 6
    requires NumberOf(whole) == us / MICROS && NumberOf(decimals) * Power10(6 - |decimals|) == us % MICROS
    ensures ValueOf(whole, decimals) == us
  {
    ValueIs(whole, decimals, us / MICROS, us % MICROS);
    DivMod(us);
  }

  lemma DecodeEncodeUnsigned(us: nat)
    ensures Decode(Encode(us)) == if us == 0 then None else Some(us)
  {
    DecimalsRead(us);
    WholeRead(us);
    EncodeUnsigned(us);
    PartsAddUp(us, Whole(us));
    var text := Whole(us) + "." + Decimals(us);
    assert text[0] == if Whole(us) == "" then '.' else Whole(us)[0];
  }

  lemma DecodeEncodeNegative(us: nat)
    requires us > 0
    ensures Decode(Encode(0 - us)) == Some(0 - us)
  {
    DigitsRead(us / MICROS);
    EncodeNegative(us);
    PartsAddUp(us, Digits(us / MICROS));
    DecodeMinus(Digits(us / MICROS) + "." + Decimals(us), us);
  }

  lemma DecodeMinus(text: string, n: nat)
    requires DecodeUnsigned(text) == Some(n)
    ensures Decode("-" + text) == Some(0 - n)
  {
    assert ("-" + text)[1..] == text;
  }

  /** A time reads back from its text exactly when it is not zero: zero is written as a single dot. */
  lemma DecodeEncode(us: int)
    ensures Decode(Encode(us)) == Some(us) <==> us != 0
    ensures us == 0 ==> Decode(Encode(us)) == None
  {
    if us >= 0 {
      DecodeEncodeUnsigned(us);
    } else {
      DecodeEncodeNegative(0 - us);
    }
  }
}
