/**
 * Menu dispatch (main.py:8-16, 142-157): `Action(int(choice))` and the table
 * from actions to operations. `int` is modelled for ASCII text: surrounding
 * whitespace, an optional sign, and decimal digits with single underscores
 * between them.
 */
module Menu {
  import opened Wrappers

  /** The ASCII characters int() skips around a number: tab, line feed, vertical tab, form feed, carriage return, space. */
  predicate IsSpace(c: char) {
    var n := c as int;
    (9 <= n <= 13) || n == 32
  }

  predicate IsDigit(c: char) {
    '0' <= c <= '9'
  }

  function TrimLeft(s: string): (t: string)
    ensures |t| <= |s| && t == s[|s| - |t|..]
    ensures t != [] ==> !IsSpace(t[0])
    decreases |s|
  {
    if s != [] && IsSpace(s[0]) then TrimLeft(s[1..]) else s
  }

  function TrimRight(s: string): (t: string)
    ensures |t| <= |s| && t == s[..|t|]
    ensures t != [] ==> !IsSpace(t[|t| - 1])
    decreases |s|
  {
    if s != [] && IsSpace(s[|s| - 1]) then TrimRight(s[..|s| - 1]) else s
  }

  function Trim(s: string): string {
    TrimRight(TrimLeft(s))
  }

  /** Digits, possibly grouped by single underscores, beginning and ending with a digit. */
  predicate DigitGroups(s: string) {
    && s != []
    && IsDigit(s[0]) && IsDigit(s[|s| - 1])
    && (forall k :: 0 <= k < |s| ==> IsDigit(s[k]) || s[k] == '_')
    && (forall k :: 0 <= k < |s| - 1 ==> s[k] == '_' ==> s[k + 1] != '_')
  }

  /** The decimal value of the digits of `s`, underscores skipped. */
  function DigitsValue(s: string): nat
    decreases |s|
  {
    if s == [] then 0
    else if IsDigit(s[|s| - 1]) then 10 * DigitsValue(s[..|s| - 1]) + (s[|s| - 1] as int - '0' as int)
    else DigitsValue(s[..|s| - 1])
  }

  /** `int(s)`; None stands for the ValueError. */
  function ParseInt(s: string): (r: Option<int>)
    ensures r.Some? ==> var t := Trim(s);
      && t != [] && IsDigit(t[|t| - 1])
      && (IsDigit(t[0]) || t[0] == '+' || t[0] == '-')
      && (r.value < 0 ==> t[0] == '-')
  {
    ParseTrimmed(Trim(s))
  }

  /** An optional sign followed by digit groups. */
  function ParseTrimmed(t: string): Option<int>
  {
    if t != [] && (t[0] == '+' || t[0] == '-') then
      if DigitGroups(t[1..]) then
        var v: int := DigitsValue(t[1..]);
        Some(if t[0] == '-' then -v else v)
      else None
    else if DigitGroups(t) then Some(DigitsValue(t))
    else None
  }

  function DigitChar(d: nat): char
    requires d < 10
  {
    ('0' as int + d) as char
  }

  /** `str(n)` for a natural number. */
  function Digits(n: nat): (s: string)
    ensures s != [] && forall k :: 0 <= k < |s| ==> IsDigit(s[k])
    decreases n
  {
    if n < 10 then [DigitChar(n)] else Digits(n / 10) + [DigitChar(n % 10)]
  }

  /** `str(n)`. */
  function Decimal(n: int): string {
    if n < 0 then "-" + Digits(-n) else Digits(n)
  }

  lemma {:induction false} DigitsValueOfDigits(n: nat)
    ensures DigitsValue(Digits(n)) == n
    decreases n
  {
    if n >= 10 {
      DigitsValueOfDigits(n / 10);
      var s := Digits(n);
      assert s[..|s| - 1] == Digits(n / 10);
    }
  }

  lemma AllDigitsAreGroups(s: string)
    requires s != [] && forall k :: 0 <= k < |s| ==> IsDigit(s[k])
    ensures DigitGroups(s)
  {
  }

  /** Text made only of digits reads as its value. */
  lemma ParseAllDigits(s: string)
    requires s != [] && forall k :: 0 <= k < |s| ==> IsDigit(s[k])
    ensures ParseInt(s) == Some(DigitsValue(s))
  {
    TrimKeepsTrimmed(s);
    assert s[0] != '+' && s[0] != '-';
    AllDigitsAreGroups(s);
    assert ParseTrimmed(s) == Some(DigitsValue(s));
  }

  /** A minus sign followed by digits reads as the negated value. */
  lemma ParseMinusDigits(s: string)
    requires s != [] && forall k :: 0 <= k < |s| ==> IsDigit(s[k])
    ensures var v: int := DigitsValue(s); ParseTrimmed("-" + s) == Some(-v)
  {
    var t := "-" + s;
    assert t[0] == '-' && t[1..] == s;
    AllDigitsAreGroups(s);
  }

  /** int() reads back what str() writes. */
  lemma ParseDecimal(n: int)
    ensures ParseInt(Decimal(n)) == Some(n)
  {
    if n < 0 {
      var m: nat := -n;
      var s := Digits(m);
      assert Decimal(n) == "-" + s;
      DigitsValueOfDigits(m);
      var t := "-" + s;
      assert t[|t| - 1] == s[|s| - 1];
      TrimKeepsTrimmed(t);
      ParseMinusDigits(s);
    } else {
      var s := Digits(n);
      assert Decimal(n) == s;
      DigitsValueOfDigits(n);
      ParseAllDigits(s);
    }
  }

  /** Zeros in front do not change the value of digits. */
  lemma {:induction false} DigitsValueSkipsZeros(zeros: string, d: string)
    requires forall k :: 0 <= k < |zeros| ==> zeros[k] == '0'
    ensures DigitsValue(zeros + d) == DigitsValue(d)
    decreases |zeros| + |d|
  {
    if d == [] {
      assert zeros + d == zeros;
      if zeros != [] {
        assert zeros[..|zeros| - 1] + [] == zeros[..|zeros| - 1];
        DigitsValueSkipsZeros(zeros[..|zeros| - 1], []);
      }
    } else {
      var t := zeros + d;
      assert t[..|t| - 1] == zeros + d[..|d| - 1];
      assert t[|t| - 1] == d[|d| - 1];
      DigitsValueSkipsZeros(zeros, d[..|d| - 1]);
    }
  }

  /** Leading zeros before the digits of n: int() reads n. */
  lemma ParseZeroPadded(zeros: string, n: nat)
    requires forall k :: 0 <= k < |zeros| ==> zeros[k] == '0'
    ensures ParseInt(zeros + Digits(n)) == Some(n)
  {
    ZeroPaddedDigits(zeros, n);
    ParseAllDigits(zeros + Digits(n));
  }

  /** A plus sign, leading zeros, then the digits of n: int() reads n. */
  lemma ParsePlusZeroPadded(zeros: string, n: nat)
    requires forall k :: 0 <= k < |zeros| ==> zeros[k] == '0'
    ensures ParseInt("+" + zeros + Digits(n)) == Some(n)
  {
    var s := zeros + Digits(n);
    ZeroPaddedDigits(zeros, n);
    var t := "+" + s;
    assert "+" + zeros + Digits(n) == t;
    assert t[|t| - 1] == s[|s| - 1];
    TrimKeepsTrimmed(t);
    ParsePlusDigits(s);
  }

  /** A minus sign, leading zeros, then the digits of n: int() reads -n. */
  lemma ParseMinusZeroPadded(zeros: string, n: nat)
    requires forall k :: 0 <= k < |zeros| ==> zeros[k] == '0'
    ensures var v: int := n; ParseInt("-" + zeros + Digits(n)) == Some(-v)
  {
    var s := zeros + Digits(n);
    ZeroPaddedDigits(zeros, n);
    var t := "-" + s;
    assert "-" + zeros + Digits(n) == t;
    assert t[|t| - 1] == s[|s| - 1];
    TrimKeepsTrimmed(t);
    ParseMinusDigits(s);
  }

  lemma ZeroPaddedDigits(zeros: string, n: nat)
    requires forall k :: 0 <= k < |zeros| ==> zeros[k] == '0'
    ensures var body := zeros + Digits(n);
      body != [] && (forall k :: 0 <= k < |body| ==> IsDigit(body[k])) && DigitsValue(body) == n
  {
    DigitsValueSkipsZeros(zeros, Digits(n));
    DigitsValueOfDigits(n);
  }

  /** A plus sign followed by digits reads as the value. */
  lemma ParsePlusDigits(s: string)
    requires s != [] && forall k :: 0 <= k < |s| ==> IsDigit(s[k])
    ensures ParseTrimmed("+" + s) == Some(DigitsValue(s))
  {
    var t := "+" + s;
    assert t[0] == '+' && t[1..] == s;
    AllDigitsAreGroups(s);
  }

  /** After trimming, a character other than a digit, an underscore or a leading sign makes int() fail. */
  lemma ParseRejectsStrayCharacter(s: string, k: nat)
    requires k < |Trim(s)|
    requires !IsDigit(Trim(s)[k]) && Trim(s)[k] != '_'
    requires k == 0 ==> Trim(s)[0] != '+' && Trim(s)[0] != '-'
    ensures ParseInt(s) == None
  {
    var t := Trim(s);
    if t[0] == '+' || t[0] == '-' {
      assert t[1..][k - 1] == t[k];
    }
  }

  /** Two underscores in a row make int() fail. */
  lemma ParseRejectsDoubleUnderscore(s: string, k: nat)
    requires k + 1 < |Trim(s)| && Trim(s)[k] == '_' && Trim(s)[k + 1] == '_'
    ensures ParseInt(s) == None
  {
    var t := Trim(s);
    if t[0] == '+' || t[0] == '-' {
      assert k >= 1;
      assert t[1..][k - 1] == '_' && t[1..][k] == '_';
    }
  }

  /** Single underscores between digit groups are skipped. */
  lemma ParseUnderscoreExample()
    ensures ParseInt("1_0") == Some(10)
  {
    var s := "1_0";
    assert DigitsValue(s) == 10 by {
      assert s[..2] == "1_" && "1_"[..1] == "1" && "1"[..0] == "";
    }
    assert DigitGroups(s);
    assert ParseTrimmed(s) == Some(10);
    assert Trim(s) == s by { TrimKeepsTrimmed(s); }
  }

  /** int() takes a plus sign and leading zeros: "+3" and "03" are 3. */
  lemma ParseSignAndZeroExamples()
    ensures ParseInt("+3") == Some(3) && ParseInt("03") == Some(3)
  {
    assert Digits(3) == "3";
    assert "+" + "" + Digits(3) == "+3";
    ParsePlusZeroPadded("", 3);
    assert "0" + Digits(3) == "03";
    ParseZeroPadded("0", 3);
  }

  /** int() refuses inner spaces, letters and doubled underscores: "3 3", "1a2", "1__0". */
  lemma ParseRefusalExamples()
    ensures ParseInt("3 3") == None && ParseInt("1a2") == None && ParseInt("1__0") == None
  {
    assert Trim("3 3") == "3 3" by { TrimKeepsTrimmed("3 3"); }
    ParseRejectsStrayCharacter("3 3", 1);
    assert Trim("1a2") == "1a2" by { TrimKeepsTrimmed("1a2"); }
    ParseRejectsStrayCharacter("1a2", 1);
    assert Trim("1__0") == "1__0" by { TrimKeepsTrimmed("1__0"); }
    ParseRejectsDoubleUnderscore("1__0", 1);
  }

  /** The eight menu entries; `auto()` numbers them 1 to 8. */
  datatype Action =
    | DisplayProducts | AddProduct | UpdateProductQuantity | SellProduct
    | ViewTransactionLog | SaveProductsJson | GenerateQuantityChart | SaveAndExit

  function Code(a: Action): int {
    match a
    case DisplayProducts => 1
    case AddProduct => 2
    case UpdateProductQuantity => 3
    case SellProduct => 4
    case ViewTransactionLog => 5
    case SaveProductsJson => 6
    case GenerateQuantityChart => 7
    case SaveAndExit => 8
  }

  /** `Action(n)`: None stands for the ValueError raised for a value with no member. */
  function ActionOf(n: int): (r: Option<Action>)
    ensures r.Some? <==> 1 <= n <= 8
    ensures r.Some? ==> Code(r.value) == n
  {
    if n == 1 then Some(DisplayProducts)
    else if n == 2 then Some(AddProduct)
    else if n == 3 then Some(UpdateProductQuantity)
    else if n == 4 then Some(SellProduct)
    else if n == 5 then Some(ViewTransactionLog)
    else if n == 6 then Some(SaveProductsJson)
    else if n == 7 then Some(GenerateQuantityChart)
    else if n == 8 then Some(SaveAndExit)
    else None
  }

  lemma ActionOfCode(a: Action)
    ensures ActionOf(Code(a)) == Some(a)
  {
  }

  /**
   * What handle_choice does with the text typed: run the operation of an
   * action, show the "invalid choice" message (the `switch.get` default), or
   * report the ValueError as "Invalid input".
   */
  datatype Response = Perform(action: Action) | InvalidChoice | InvalidNumber

  /** The `switch` dictionary: every action to its own operation. */
  const Switch: map<Action, Response> := map[
    DisplayProducts := Perform(DisplayProducts),
    AddProduct := Perform(AddProduct),
    UpdateProductQuantity := Perform(UpdateProductQuantity),
    SellProduct := Perform(SellProduct),
    ViewTransactionLog := Perform(ViewTransactionLog),
    SaveProductsJson := Perform(SaveProductsJson),
    GenerateQuantityChart := Perform(GenerateQuantityChart),
    SaveAndExit := Perform(SaveAndExit)]

  function HandleChoice(choice: string): (r: Response)
    ensures r != InvalidChoice
    ensures r.Perform? ==> ParseInt(choice) == Some(Code(r.action))
  {
    Dispatch(ParseInt(choice))
  }

  /** `Action(n)` looked up in `switch`, or the ValueError when int() or Action() fails. */
  function Dispatch(parsed: Option<int>): (r: Response)
    ensures r != InvalidChoice
    ensures r.Perform? ==> parsed == Some(Code(r.action))
  {
    match parsed
    case None => InvalidNumber
    case Some(n) =>
      match ActionOf(n)
      case None => InvalidNumber
      case Some(a) =>
        SwitchPerforms(a);
        if a in Switch then Switch[a] else InvalidChoice
  }

  /** The `switch` table holds every action, each bound to its own operation. */
  lemma SwitchPerforms(a: Action)
    ensures a in Switch && Switch[a] == Perform(a)
  {
    match a
    case DisplayProducts => case AddProduct => case UpdateProductQuantity => case SellProduct =>
    case ViewTransactionLog => case SaveProductsJson => case GenerateQuantityChart => case SaveAndExit =>
  }

  /**
   * A number selects an action exactly when it is that action's code; all
   * else is "Invalid input", so the "invalid choice" default is never reached.
   */
  lemma DispatchSelects(parsed: Option<int>)
    ensures Dispatch(parsed) != InvalidChoice
    ensures forall a :: Dispatch(parsed) == Perform(a) <==> parsed == Some(Code(a))
    ensures Dispatch(parsed) == InvalidNumber <==> (parsed.None? || !(1 <= parsed.value <= 8))
  {
    match parsed
    case None =>
    case Some(n) =>
      match ActionOf(n)
      case None =>
      case Some(a) =>
        SwitchPerforms(a);
  }

  predicate AllSpace(s: string) {
    forall k :: 0 <= k < |s| ==> IsSpace(s[k])
  }

  lemma {:induction false} TrimLeftSkipsSpace(pre: string, s: string)
    requires AllSpace(pre) && s != [] && !IsSpace(s[0])
    ensures TrimLeft(pre + s) == s
    decreases |pre|
  {
    if pre == [] {
      assert pre + s == s;
    } else {
      assert (pre + s)[1..] == pre[1..] + s;
      TrimLeftSkipsSpace(pre[1..], s);
    }
  }

  lemma {:induction false} TrimRightSkipsSpace(s: string, post: string)
    requires AllSpace(post) && s != [] && !IsSpace(s[|s| - 1])
    ensures TrimRight(s + post) == s
    decreases |post|
  {
    if post == [] {
      assert s + post == s;
    } else {
      var t := s + post;
      assert t[..|t| - 1] == s + post[..|post| - 1];
      TrimRightSkipsSpace(s, post[..|post| - 1]);
    }
  }

  lemma TrimKeepsTrimmed(s: string)
    requires s != [] && !IsSpace(s[0]) && !IsSpace(s[|s| - 1])
    ensures Trim(s) == s
  {
    TrimLeftSkipsSpace([], s);
    TrimRightSkipsSpace(s, []);
    assert [] + s == s && s + [] == s;
  }

  /** Whitespace around the text does not change what int() reads. */
  lemma ParseIgnoresSurroundingSpace(pre: string, s: string, post: string)
    requires AllSpace(pre) && AllSpace(post)
    requires s != [] && !IsSpace(s[0]) && !IsSpace(s[|s| - 1])
    ensures ParseInt(pre + s + post) == ParseInt(s)
  {
    assert pre + s + post == pre + (s + post);
    TrimLeftSkipsSpace(pre, s + post);
    TrimRightSkipsSpace(s, post);
    TrimKeepsTrimmed(s);
    assert Trim(pre + s + post) == Trim(s);
  }

  /** Typing an action's number, with any whitespace around it, selects that action. */
  lemma TypedNumberSelects(a: Action, pre: string, post: string)
    requires AllSpace(pre) && AllSpace(post)
    ensures HandleChoice(pre + Decimal(Code(a)) + post) == Perform(a)
  {
    var n := Code(a);
    var d := Decimal(n);
    assert d == [DigitChar(n)];
    ParseDecimal(n);
    ParseIgnoresSurroundingSpace(pre, d, post);
    var choice := pre + d + post;
    assert ParseInt(choice) == Some(n);
    DispatchSelects(Some(n));
    assert HandleChoice(choice) == Dispatch(Some(n));
  }
}
