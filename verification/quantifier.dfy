/** A quantifier token turned into a repeat count: `_Quantifier` in gojek.py.
    `?`, `*` and `+` draw from fixed ranges, a bare number is taken as is,
    and `m,n` draws from `[m, n]`. Numbers are read with Python's `int()`. */
module Quantifier {
  import opened Base
  import opened Random

  predicate IsDigit(c: char) {
    '0' <= c <= '9'
  }

  /** The ASCII whitespace `int()` skips around a number: codes 9 to 13
      and the space. The separators 28 to 31, which `str.isspace` counts,
      are not skipped. */
  predicate IsSpace(c: char) {
    (9 <= c as int <= 13) || c == ' '
  }

  /** `s` without its leading whitespace. */
  function TrimStart(s: string): string {
    if |s| > 0 && IsSpace(s[0]) then TrimStart(s[1..]) else s
  }

  /** `s` without its trailing whitespace. */
  function TrimEnd(s: string): string {
    if |s| > 0 && IsSpace(s[|s| - 1]) then TrimEnd(s[..|s| - 1]) else s
  }

  /** The text `int()` reads once surrounding whitespace is dropped. */
  function Strip(s: string): string {
    TrimEnd(TrimStart(s))
  }

  /** Python's grammar for the digits of a decimal literal,
      `digit (["_"] digit)*`: digits, with single underscores allowed
      between two digits. */
  predicate IsDigitRun(d: string)
    decreases |d|
  {
    && |d| > 0
    && IsDigit(d[|d| - 1])
    && (|| |d| == 1
        || IsDigitRun(d[..|d| - 1])
        || (|d| >= 3 && d[|d| - 2] == '_' && IsDigitRun(d[..|d| - 2])))
  }

  /** A digit run starts with a digit and holds only digits and underscores. */
  lemma DigitRunChars(d: string)
    requires IsDigitRun(d)
    ensures IsDigit(d[0])
    ensures forall i :: 0 <= i < |d| ==> IsDigit(d[i]) || d[i] == '_'
    decreases |d|
  {
    if |d| > 1 {
      if IsDigitRun(d[..|d| - 1]) {
        DigitRunChars(d[..|d| - 1]);
        assert forall i :: 0 <= i < |d| - 1 ==> d[i] == d[..|d| - 1][i];
      } else {
        DigitRunChars(d[..|d| - 2]);
        assert forall i :: 0 <= i < |d| - 2 ==> d[i] == d[..|d| - 2][i];
      }
    }
  }

  /** The number a digit run denotes; underscores are ignored. */
  function DigitsValue(d: string): nat
    requires IsDigitRun(d)
    decreases |d|
  {
    var last := d[|d| - 1] as int - '0' as int;
    if |d| == 1 then last
    else if d[|d| - 2] == '_' then
      assert d[..|d| - 1][|d| - 2] == '_';
      assert !IsDigitRun(d[..|d| - 1]);
      10 * DigitsValue(d[..|d| - 2]) + last
    else 10 * DigitsValue(d[..|d| - 1]) + last
  }

  /** Python's `int(s)` for ASCII text: optional surrounding whitespace, an
      optional sign, a digit run; ValueError for anything else. */
  function ParseInt(s: string): (r: Result<int>)
    ensures r.Err? ==> r.error == ValueError
  {
    var t := Strip(s);
    if |t| > 0 && (t[0] == '+' || t[0] == '-') then
      if IsDigitRun(t[1..]) then
        var v: int := DigitsValue(t[1..]);
        Ok(if t[0] == '-' then -v else v)
      else Err(ValueError)
    else if IsDigitRun(t) then Ok(DigitsValue(t))
    else Err(ValueError)
  }

  function DigitChar(d: nat): (c: char)
    requires d < 10
    ensures IsDigit(c) && c as int - '0' as int == d
  {
    ('0' as int + d) as char
  }

  /** The decimal spelling of `n` (Python's `str(n)` for a natural number). */
  function Decimal(n: nat): (s: string)
    ensures IsDigitRun(s) && DigitsValue(s) == n
    ensures forall i :: 0 <= i < |s| ==> IsDigit(s[i])
  {
    if n < 10 then [DigitChar(n)]
    else
      var s := Decimal(n / 10) + [DigitChar(n % 10)];
      assert s[..|s| - 1] == Decimal(n / 10);
      s
  }

  /** `int()` reads back what `Decimal` writes: a round trip. */
  lemma ParseDecimal(n: nat)
    ensures ParseInt(Decimal(n)) == Ok(n)
  {
    var s := Decimal(n);
    assert !IsSpace(s[0]) && !IsSpace(s[|s| - 1]);
    assert TrimStart(s) == s;
    assert TrimEnd(s) == s;
  }

  /** `int()` ignores whitespace on either side of a number. */
  lemma ParseIgnoresSpace(s: string, c: char)
    requires IsSpace(c)
    ensures ParseInt([c] + s) == ParseInt(s)
    ensures ParseInt(s + [c]) == ParseInt(s)
  {
    assert ([c] + s)[1..] == s;
    TrimStartAppend(s, c);
    assert (TrimStart(s) + [c])[..|TrimStart(s)|] == TrimStart(s);
  }

  /** The separators 28 to 31 are not whitespace to `int()`: a number
      behind one of them is rejected. */
  lemma SeparatorRejected(c: char, s: string)
    requires 28 <= c as int <= 31
    ensures ParseInt([c] + s) == Err(ValueError)
  {
    var u := [c] + s;
    assert TrimStart(u) == u;
    TrimEndKeepsFirst(u);
    var t := Strip(u);
    if IsDigitRun(t) {
      DigitRunChars(t);
    }
  }

  /** Trailing whitespace never eats a first character that is not whitespace. */
  lemma TrimEndKeepsFirst(u: string)
    requires |u| > 0 && !IsSpace(u[0])
    ensures |TrimEnd(u)| > 0 && TrimEnd(u)[0] == u[0]
  {
    if IsSpace(u[|u| - 1]) {
      assert u[..|u| - 1][0] == u[0];
      TrimEndKeepsFirst(u[..|u| - 1]);
    }
  }

  lemma TrimStartAppend(s: string, c: char)
    requires IsSpace(c)
    ensures TrimEnd(TrimStart(s + [c])) == TrimEnd(TrimStart(s))
  {
    if |s| > 0 && IsSpace(s[0]) {
      assert (s + [c])[1..] == s[1..] + [c];
      TrimStartAppend(s[1..], c);
    } else if |s| > 0 {
      assert TrimStart(s + [c]) == s + [c];
      assert (s + [c])[..|s|] == s;
    } else {
      assert TrimStart([c]) == TrimStart([c][1..]);
    }
  }

  /** The range a quantifier allows: one exact count, or a closed range to draw from. */
  datatype Bounds = Exactly(n: int) | Between(lo: int, hi: int) {
    predicate Holds(k: int) {
      match this
      case Exactly(n) => k == n
      case Between(lo, hi) => lo <= k <= hi
    }
  }

  /** The constructor's brace stripping (gojek.py:124-127): `[1:-1]` only
      when the first character is `{`. */
  function Unbrace(arg: string): string
    requires |arg| > 0
  {
    if arg[0] == '{' then Inner(arg) else arg
  }

  /** What gojek.py:124-146 makes of a quantifier text before drawing:
      IndexError on empty text, fixed ranges for `?`, `*`, `+`, an exact
      count for a number, a range for `m,n`; ValueError for anything
      `int()` rejects and for more than one comma. */
  function Parse(arg: string): (r: Result<Bounds>)
    ensures |arg| == 0 <==> r == Err(IndexError)
  {
    if |arg| == 0 then Err(IndexError)
    else
      var q := Unbrace(arg);
      if q == "?" then Ok(Between(0, 1))
      else if q == "*" then Ok(Between(0, 20))
      else if q == "+" then Ok(Between(1, 20))
      else if ',' !in q then
        var n :- ParseInt(q);
        Ok(Exactly(n))
      else
        var parts := Split(q, ',');
        if |parts| != 2 then Err(ValueError)
        else
          var lo :- ParseInt(parts[0]);
          var hi :- ParseInt(parts[1]);
          Ok(Between(lo, hi))
  }

  /** `_Quantifier(arg).generate()`: a count the quantifier allows; a range
      whose end is below its start raises ValueError from `randint`. */
  function Count(arg: string, g: Rng): (r: Result<Drawn>)
    ensures |arg| == 0 ==> r == Err(IndexError)
    ensures |arg| > 0 && Unbrace(arg) == "?" ==> r.Ok? && 0 <= r.value.n <= 1
    ensures |arg| > 0 && Unbrace(arg) == "*" ==> r.Ok? && 0 <= r.value.n <= 20
    ensures |arg| > 0 && Unbrace(arg) == "+" ==> r.Ok? && 1 <= r.value.n <= 20
    ensures r.Ok? ==> Parse(arg).Ok? && Parse(arg).value.Holds(r.value.n)
    ensures r.Ok? <==> Parse(arg).Ok? && (Parse(arg).value.Between? ==> Parse(arg).value.lo <= Parse(arg).value.hi)
    ensures r.Ok? && Parse(arg).value.Exactly? ==> r.value.rng == g
  {
    var b :- Parse(arg);
    match b
    case Exactly(n) => Ok(Drawn(n, g))
    case Between(lo, hi) => RandInt(g, lo, hi)
  }

  /** Every count a quantifier allows is drawn by some random source. */
  lemma CountReaches(arg: string, k: int)
    requires Parse(arg).Ok? && Parse(arg).value.Holds(k)
    ensures exists g :: Count(arg, g).Ok? && Count(arg, g).value.n == k
  {
    match Parse(arg).value
    case Exactly(n) =>
      var g := Rng((_: nat) => 0, 0);
      assert Count(arg, g).value.n == k;
    case Between(lo, hi) =>
      RandIntReaches(lo, hi, k);
      var g :| RandInt(g, lo, hi) == Ok(Drawn(k, g.Next()));
      assert Count(arg, g).value.n == k;
  }

  /** Any count a quantifier allows is what `Count` returns under a plan of
      at most one draw; plans for consecutive draws compose. */
  lemma CountPlan(arg: string, k: int) returns (plan: seq<nat>)
    requires Parse(arg).Ok? && Parse(arg).value.Holds(k)
    ensures |plan| <= 1
    ensures forall g :: Follows(g, plan) ==> Count(arg, g) == Ok(Drawn(k, g.Skip(|plan|)))
  {
    match Parse(arg).value
    case Exactly(n) =>
      plan := [];
    case Between(lo, hi) =>
      plan := RandIntPlan(lo, hi, k);
  }

  /** `{m}` and a bare `m` give exactly `m` and draw nothing (gojek.py:141-142). */
  lemma CountExact(n: nat, g: Rng)
    ensures Count(Decimal(n), g) == Ok(Drawn(n, g))
    ensures Count("{" + Decimal(n) + "}", g) == Ok(Drawn(n, g))
  {
    ParseDecimal(n);
    var d := Decimal(n);
    assert Inner("{" + d + "}") == d;
    assert Unbrace(d) == d;
  }

  /** `m,n` draws from `[m, n]` and fails with ValueError when `m > n`
      (gojek.py:144-146). */
  lemma CountBetween(m: nat, n: nat, g: Rng)
    ensures Count(Decimal(m) + "," + Decimal(n), g).Ok? <==> m <= n
    ensures Count(Decimal(m) + "," + Decimal(n), g).Err? ==> Count(Decimal(m) + "," + Decimal(n), g).error == ValueError
    ensures Count(Decimal(m) + "," + Decimal(n), g).Ok? ==> m <= Count(Decimal(m) + "," + Decimal(n), g).value.n <= n
  {
    var a, b := Decimal(m), Decimal(n);
    DecimalPlain(m);
    DecimalPlain(n);
    var arg := a + "," + b;
    assert arg == a + [','] + b;
    SplitTwo(a, b, ',');
    assert arg[0] == a[0] && arg[|a|] == ',';
    assert Unbrace(arg) == arg;
    ParseDecimal(m);
    ParseDecimal(n);
    assert Parse(arg) == Ok(Between(m, n));
  }

  /** A decimal spelling holds neither a comma nor an opening brace. */
  lemma DecimalPlain(n: nat)
    ensures ',' !in Decimal(n) && Decimal(n)[0] != '{'
  {
    var s := Decimal(n);
    assert forall i :: 0 <= i < |s| ==> s[i] != ',';
  }

  /** Braces are stripped only when the text starts with `{`: a number
      followed by a stray `}` is not a number (gojek.py:125-126, 142). */
  lemma CountStrayBrace(n: nat, g: Rng)
    ensures Count(Decimal(n) + "}", g) == Err(ValueError)
  {
    var arg := Decimal(n) + "}";
    assert arg[0] == Decimal(n)[0];
    assert arg[|arg| - 1] == '}';
    assert TrimStart(arg) == arg;
    assert TrimEnd(arg) == arg;
    assert !IsDigitRun(arg);
  }
}
