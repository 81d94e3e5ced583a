/** A pattern without groups: `_SimplePattern` in gojek.py. One top-level
    `|` branch is chosen, the branch is read left to right as a sequence of
    `<class-token><quantifier>` units, and each unit contributes as many
    independent samples of its token as its quantifier draws. */
module SimplePattern {
  import opened Base
  import opened Random
  import CharacterSet
  import Quantifier

  /** The quantifier that follows a class token, as the tokenizer reads it:
      none, one of `?`, `+`, `*`, or the text between `{` and `}`. */
  datatype Quant = Once | Mark(c: char) | Braced(body: string)

  /** One `<class-token><quantifier>` unit of a branch. */
  datatype Unit = Unit(token: string, quant: Quant)

  /** A value read from the front of a text, and how many characters it took. */
  datatype Read<T> = Read(item: T, used: nat)

  predicate IsQuantStart(c: char) {
    c == '{' || c == '?' || c == '+' || c == '*'
  }

  predicate IsCloser(c: char) {
    c == ']' || c == ')'
  }

  function QuantText(q: Quant): string {
    match q
    case Once => ""
    case Mark(c) => [c]
    case Braced(b) => "{" + b + "}"
  }

  /** The text a unit was read from. */
  function UnitText(u: Unit): string {
    u.token + QuantText(u.quant)
  }

  function UnitsText(us: seq<Unit>): string {
    if |us| == 0 then "" else UnitText(us[0]) + UnitsText(us[1..])
  }

  /** The token shapes the tokenizer produces: one character other than `[`
      and `(`; or `[` or `(`, a run free of `]` and `)`, and the first `]`
      or `)` (which need not match the opener). */
  predicate WellFormedToken(t: string) {
    || (|t| == 1 && t[0] != '[' && t[0] != '(')
    || (&& |t| >= 2
        && (t[0] == '[' || t[0] == '(')
        && IsCloser(t[|t| - 1])
        && forall i :: 1 <= i < |t| - 1 ==> !IsCloser(t[i]))
  }

  predicate WellFormedQuant(q: Quant) {
    match q
    case Once => true
    case Mark(c) => c == '?' || c == '+' || c == '*'
    case Braced(b) => '}' !in b
  }

  /** The tokenizer's reading discipline over a whole branch: every unit is
      well formed, and a unit without a quantifier is not followed by a
      token that would have been read as its quantifier. */
  predicate Tokenized(us: seq<Unit>) {
    && (forall j :: 0 <= j < |us| ==> WellFormedToken(us[j].token) && WellFormedQuant(us[j].quant))
    && (forall j :: 0 <= j < |us| - 1 && us[j].quant.Once? ==> !IsQuantStart(us[j + 1].token[0]))
  }

  /** The first position at or after `i` holding one of `targets`;
      IndexError when there is none, as the source's scanning loops run off
      the end of the pattern (gojek.py:175, 197). */
  function Find(s: string, i: nat, targets: set<char>): (r: Result<nat>)
    requires i <= |s|
    ensures r.Ok? ==> i <= r.value < |s| && s[r.value] in targets
    ensures r.Ok? ==> forall k :: i <= k < r.value ==> s[k] !in targets
    ensures r.Err? ==> r.error == IndexError && forall k :: i <= k < |s| ==> s[k] !in targets
    decreases |s| - i
  {
    if i == |s| then Err(IndexError)
    else if s[i] in targets then Ok(i)
    else Find(s, i + 1, targets)
  }

  /** The class token at the front of `s` (gojek.py:169-180). */
  function ReadToken(s: string): (r: Result<Read<string>>)
    requires |s| > 0
    ensures r.Ok? ==> 0 < r.value.used <= |s| && r.value.item == s[..r.value.used]
    ensures r.Ok? ==> WellFormedToken(r.value.item)
    ensures r.Err? ==> r.error == IndexError
  {
    if s[0] == '[' || s[0] == '(' then
      var j :- Find(s, 1, {']', ')'});
      Ok(Read(s[..j + 1], j + 1))
    else Ok(Read([s[0]], 1))
  }

  /** The quantifier at the front of `s`, the text after a class token
      (gojek.py:183-202). */
  function ReadQuant(s: string): (r: Result<Read<Quant>>)
    ensures r.Ok? ==> r.value.used <= |s| && QuantText(r.value.item) == s[..r.value.used]
    ensures r.Ok? ==> WellFormedQuant(r.value.item)
    ensures r.Ok? && r.value.item.Once? ==> |s| == 0 || !IsQuantStart(s[0])
    ensures r.Err? ==> r.error == IndexError
  {
    if |s| == 0 || !IsQuantStart(s[0]) then Ok(Read(Once, 0))
    else if s[0] != '{' then Ok(Read(Mark(s[0]), 1))
    else
      var m :- Find(s, 1, {'}'});
      assert s[..m + 1] == "{" + s[1..m] + "}";
      Ok(Read(Braced(s[1..m]), m + 1))
  }

  /** The unit at the front of `s`. */
  function ReadUnit(s: string): (r: Result<Read<Unit>>)
    requires |s| > 0
    ensures r.Ok? ==> 0 < r.value.used <= |s| && UnitText(r.value.item) == s[..r.value.used]
    ensures r.Ok? ==> WellFormedToken(r.value.item.token) && WellFormedQuant(r.value.item.quant)
    ensures r.Ok? && r.value.item.quant.Once? ==> r.value.used == |s| || !IsQuantStart(s[r.value.used])
    ensures r.Err? ==> r.error == IndexError
  {
    var t :- ReadToken(s);
    var q :- ReadQuant(s[t.used..]);
    assert s[..t.used + q.used] == s[..t.used] + s[t.used..][..q.used];
    Ok(Read(Unit(t.item, q.item), t.used + q.used))
  }

  /** The units of a whole branch, read left to right. */
  function Tokenize(s: string): (r: Result<seq<Unit>>)
    ensures r.Ok? ==> UnitsText(r.value) == s && Tokenized(r.value)
    ensures r.Err? ==> r.error == IndexError
    decreases |s|
  {
    if |s| == 0 then Ok([])
    else
      var u :- ReadUnit(s);
      var rest :- Tokenize(s[u.used..]);
      ConsUnit(s, u, rest);
      Ok([u.item] + rest)
  }

  /** A well-formed token is read back whole, whatever follows it. */
  lemma ReadTokenOf(t: string, tail: string)
    requires WellFormedToken(t)
    ensures ReadToken(t + tail) == Ok(Read(t, |t|))
  {
    var s := t + tail;
    assert s[..|t|] == t;
    if t[0] == '[' || t[0] == '(' {
      assert s[|t| - 1] in {']', ')'};
      assert forall k :: 1 <= k < |t| - 1 ==> s[k] !in {']', ')'};
      assert Find(s, 1, {']', ')'}) == Ok(|t| - 1);
    }
  }

  /** A well-formed quantifier is read back whole, whatever follows it, as
      long as an absent quantifier is not followed by a quantifier's start. */
  lemma ReadQuantOf(q: Quant, tail: string)
    requires WellFormedQuant(q)
    requires q.Once? ==> |tail| == 0 || !IsQuantStart(tail[0])
    ensures ReadQuant(QuantText(q) + tail) == Ok(Read(q, |QuantText(q)|))
  {
    var s := QuantText(q) + tail;
    match q
    case Once =>
      assert s == tail;
    case Mark(c) =>
      assert s[0] == c;
    case Braced(b) =>
      assert s[0] == '{' && s[1 + |b|] == '}';
      assert forall k :: 1 <= k < 1 + |b| ==> s[k] == b[k - 1];
      assert Find(s, 1, {'}'}) == Ok(1 + |b|);
      assert s[1..1 + |b|] == b;
  }

  /** A unit read at the front of `s`, followed by a tokenized remainder,
      spells `s` and keeps the discipline. */
  lemma ConsUnit(s: string, u: Read<Unit>, rest: seq<Unit>)
    requires |s| > 0 && ReadUnit(s) == Ok(u)
    requires UnitsText(rest) == s[u.used..] && Tokenized(rest)
    ensures UnitsText([u.item] + rest) == s && Tokenized([u.item] + rest)
  {
    var us := [u.item] + rest;
    assert us[0] == u.item && us[1..] == rest;
    assert s == s[..u.used] + s[u.used..];
    if |rest| > 0 {
      TextStarts(rest);
      assert s[u.used] == s[u.used..][0];
    }
    forall j | 0 <= j < |us|
      ensures WellFormedToken(us[j].token) && WellFormedQuant(us[j].quant)
    {
      if j > 0 {
        assert us[j] == rest[j - 1];
      }
    }
    forall j | 0 <= j < |us| - 1 && us[j].quant.Once?
      ensures !IsQuantStart(us[j + 1].token[0])
    {
      assert us[j + 1] == rest[j];
      if j > 0 {
        assert us[j] == rest[j - 1];
      }
    }
  }

  /** Reading the text of a well-formed unit gives that unit back, whatever
      follows, as long as the follower cannot be taken for its quantifier. */
  lemma ReadUnitOf(u: Unit, tail: string)
    requires WellFormedToken(u.token) && WellFormedQuant(u.quant)
    requires u.quant.Once? ==> |tail| == 0 || !IsQuantStart(tail[0])
    ensures ReadUnit(UnitText(u) + tail) == Ok(Read(u, |UnitText(u)|))
  {
    var s := UnitText(u) + tail;
    assert s == u.token + (QuantText(u.quant) + tail);
    ReadTokenOf(u.token, QuantText(u.quant) + tail);
    assert s[|u.token|..] == QuantText(u.quant) + tail;
    ReadQuantOf(u.quant, tail);
  }

  /** The tokenizer's reading is the only one its discipline allows:
      tokenizing the text of any such unit sequence gives it back. */
  lemma {:induction false} TokenizeUnique(us: seq<Unit>)
    requires Tokenized(us)
    ensures Tokenize(UnitsText(us)) == Ok(us)
  {
    if |us| > 0 {
      var s := UnitsText(us);
      var tail := UnitsText(us[1..]);
      var n := |UnitText(us[0])|;
      assert s == UnitText(us[0]) + tail;
      if |us| > 1 {
        assert us[1..][0] == us[1];
        TextStarts(us[1..]);
      }
      ReadUnitOf(us[0], tail);
      assert s[n..] == tail;
      TokenizedTail(us);
      TokenizeUnique(us[1..]);
      TokenizeStep(s, n, us);
    }
  }

  /** The text of units starts with the first character of the first token. */
  lemma TextStarts(us: seq<Unit>)
    requires |us| > 0 && WellFormedToken(us[0].token)
    ensures |UnitsText(us)| > 0 && UnitsText(us)[0] == us[0].token[0]
  {
    assert UnitsText(us) == us[0].token + (QuantText(us[0].quant) + UnitsText(us[1..]));
  }

  /** The tokenizer's discipline holds of every suffix. */
  lemma TokenizedTail(us: seq<Unit>)
    requires |us| > 0 && Tokenized(us)
    ensures Tokenized(us[1..])
  {
    forall j | 0 <= j < |us| - 2 && us[1..][j].quant.Once?
      ensures !IsQuantStart(us[1..][j + 1].token[0])
    {
      assert us[1..][j] == us[j + 1] && us[1..][j + 1] == us[j + 2];
    }
  }

  /** One step of the tokenizer: a unit read at the front, then the rest. */
  lemma TokenizeStep(s: string, n: nat, us: seq<Unit>)
    requires |s| > 0 && |us| > 0 && ReadUnit(s) == Ok(Read(us[0], n))
    requires Tokenize(s[n..]) == Ok(us[1..])
    ensures Tokenize(s) == Ok(us)
  {
    assert [us[0]] + us[1..] == us;
  }

  /** The text a quantifier hands to `_Quantifier`: the mark itself, or
      what lies between the braces (gojek.py:190-199). */
  function QuantArg(q: Quant): string {
    match q
    case Once => ""
    case Mark(c) => [c]
    case Braced(b) => b
  }

  /** The counts a unit's quantifier allows: exactly one without a
      quantifier, otherwise whatever the quantifier text permits. */
  predicate CountAllows(q: Quant, k: int) {
    if q.Once? then k == 1
    else Quantifier.Parse(QuantArg(q)).Ok? && Quantifier.Parse(QuantArg(q)).value.Holds(k)
  }

  /** How many times `range(0, k)` runs. */
  function Reps(k: int): nat {
    if k <= 0 then 0 else k
  }

  /** The repeat count of one unit (gojek.py:186-201). */
  function Times(q: Quant, g: Rng): (r: Result<Drawn>)
    ensures q.Once? ==> r == Ok(Drawn(1, g))
    ensures r.Ok? ==> CountAllows(q, r.value.n)
    ensures q.Braced? && |q.body| == 0 ==> r == Err(IndexError)
  {
    match q
    case Once => Ok(Drawn(1, g))
    case Mark(c) => Quantifier.Count([c], g)
    case Braced(b) => Quantifier.Count(b, g)
  }

  /** `times` samples of `token`, each drawn afresh (gojek.py:204-205);
      nothing at all when `times` is zero or negative. */
  function Repeat(token: string, times: int, g: Rng): (r: Result<Out>)
    requires IsAscii(token)
    ensures times <= 0 ==> r == Ok(Out("", g))
    ensures r.Ok? ==> IsAscii(r.value.text) && (IsPrintable(token) ==> IsPrintable(r.value.text))
    decreases times
  {
    if times <= 0 then Ok(Out("", g))
    else
      var first :- CharacterSet.Sample(token, g);
      var rest :- Repeat(token, times - 1, first.rng);
      ConcatBands(first.text, rest.text);
      Ok(Out(first.text + rest.text, rest.rng))
  }

  /** gojek.py:166-207 on the remaining text `s` of a branch: read a unit,
      draw its count, sample its token that many times, and carry on with
      what follows. A malformed unit raises only once the units before it
      have been generated, as in the source's single pass. */
  function GenUnits(s: string, g: Rng): (r: Result<Out>)
    requires IsAscii(s)
    ensures r.Ok? ==> IsAscii(r.value.text) && (IsPrintable(s) ==> IsPrintable(r.value.text))
    decreases |s|
  {
    if |s| == 0 then Ok(Out("", g))
    else
      var u :- ReadUnit(s);
      var unit := u.item;
      assert unit.token == s[..u.used][..|unit.token|];
      SliceBands(s, 0, |unit.token|);
      SliceBands(s, u.used, |s|);
      var k :- Times(unit.quant, g);
      var head :- Repeat(unit.token, k.n, k.rng);
      var tail :- GenUnits(s[u.used..], head.rng);
      ConcatBands(head.text, tail.text);
      Ok(Out(head.text + tail.text, tail.rng))
  }

  /** `_SimplePattern.generate` (gojek.py:155-207): pick one `|` branch at
      random when there is more than one, then generate it unit by unit. */
  function Generate(p: string, g: Rng): (r: Result<Out>)
    requires IsAscii(p)
    ensures '|' !in p ==> r == GenUnits(p, g)
    ensures r.Ok? ==> IsAscii(r.value.text) && (IsPrintable(p) ==> IsPrintable(r.value.text))
  {
    if '|' in p then
      var branches := Split(p, '|');
      SplitBands(p, '|');
      var b := RandInt(g, 0, |branches| - 1).value;
      GenUnits(branches[b.n], b.rng)
    else GenUnits(p, g)
  }

  // The strings a pattern denotes, defined independently of the generator's
  // single pass: a branch is a sequence of units, a unit denotes any
  // concatenation of as many samples of its token as its quantifier allows.

  function Concat(parts: seq<string>): string {
    if |parts| == 0 then "" else parts[0] + Concat(parts[1..])
  }

  /** Every piece is a possible sample of `token`. */
  ghost predicate Samples(token: string, pieces: seq<string>) {
    forall i :: 0 <= i < |pieces| ==> CharacterSet.Allows(token, pieces[i])
  }

  /** The strings one unit may contribute. */
  ghost predicate UnitAllows(u: Unit, t: string) {
    exists k: int, pieces: seq<string> ::
      CountAllows(u.quant, k) && |pieces| == Reps(k) && Samples(u.token, pieces) && Concat(pieces) == t
  }

  /** `t` splits, in order, into one contribution per unit. */
  ghost predicate Explains(us: seq<Unit>, t: string)
    decreases |us|
  {
    if |us| == 0 then t == ""
    else exists i :: 0 <= i <= |t| && UnitAllows(us[0], t[..i]) && Explains(us[1..], t[i..])
  }

  /** The strings a single branch denotes. */
  ghost predicate BranchAllows(b: string, t: string) {
    Tokenize(b).Ok? && Explains(Tokenize(b).value, t)
  }

  /** The strings a pattern without groups denotes: those of any one of its
      `|` branches. */
  ghost predicate Allows(p: string, t: string) {
    exists j :: 0 <= j < |Split(p, '|')| && BranchAllows(Split(p, '|')[j], t)
  }

  /** Whatever `Repeat` produces is `Reps(times)` samples of the token, in order. */
  lemma RepeatSound(token: string, times: int, g: Rng) returns (pieces: seq<string>)
    requires IsAscii(token) && Repeat(token, times, g).Ok?
    ensures |pieces| == Reps(times) && Samples(token, pieces)
    ensures Concat(pieces) == Repeat(token, times, g).value.text
    decreases times
  {
    if times <= 0 {
      pieces := [];
    } else {
      var first := CharacterSet.Sample(token, g).value;
      CharacterSet.SampleOutcomes(token, first.text);
      var rest := RepeatSound(token, times - 1, first.rng);
      pieces := [first.text] + rest;
      assert pieces[1..] == rest;
    }
  }

  /** Whatever `GenUnits` produces is explained by the units of its input:
      the text tokenizes, and the output is one contribution per unit, in order. */
  lemma {:induction false} GenUnitsSound(s: string, g: Rng)
    requires IsAscii(s) && GenUnits(s, g).Ok?
    ensures Tokenize(s).Ok? && Explains(Tokenize(s).value, GenUnits(s, g).value.text)
    decreases |s|
  {
    if |s| > 0 {
      var u := ReadUnit(s).value;
      var unit := u.item;
      assert unit.token == s[..u.used][..|unit.token|];
      SliceBands(s, 0, |unit.token|);
      SliceBands(s, u.used, |s|);
      var k := Times(unit.quant, g).value;
      var head := Repeat(unit.token, k.n, k.rng).value;
      var pieces := RepeatSound(unit.token, k.n, k.rng);
      assert UnitAllows(unit, head.text);
      GenUnitsSound(s[u.used..], head.rng);
      var tail := GenUnits(s[u.used..], head.rng).value;
      var us := Tokenize(s).value;
      assert us == [unit] + Tokenize(s[u.used..]).value;
      var t := head.text + tail.text;
      assert t[..|head.text|] == head.text && t[|head.text|..] == tail.text;
      assert us[1..] == Tokenize(s[u.used..]).value;
    }
  }

  /** Whatever `Generate` produces is denoted by its pattern. */
  lemma GenerateSound(p: string, g: Rng)
    requires IsAscii(p) && Generate(p, g).Ok?
    ensures Allows(p, Generate(p, g).value.text)
  {
    var branches := Split(p, '|');
    SplitBands(p, '|');
    if '|' in p {
      var b := RandInt(g, 0, |branches| - 1).value;
      GenUnitsSound(branches[b.n], b.rng);
    } else {
      assert branches == [p];
      GenUnitsSound(p, g);
    }
  }

  /** Every count a unit's quantifier allows is drawn under some plan. */
  lemma TimesPlan(q: Quant, k: int) returns (plan: seq<nat>)
    requires CountAllows(q, k)
    ensures forall g :: Follows(g, plan) ==> Times(q, g) == Ok(Drawn(k, g.Skip(|plan|)))
  {
    match q
    case Once =>
      plan := [];
    case Mark(c) =>
      plan := Quantifier.CountPlan([c], k);
    case Braced(b) =>
      plan := Quantifier.CountPlan(b, k);
  }

  /** One step of `Repeat`: a first sample, then the rest. */
  lemma RepeatCons(token: string, times: int, g: Rng, first: Out, rest: Out)
    requires IsAscii(token) && times > 0
    requires CharacterSet.Sample(token, g) == Ok(first)
    requires Repeat(token, times - 1, first.rng) == Ok(rest)
    ensures Repeat(token, times, g) == Ok(Out(first.text + rest.text, rest.rng))
  {
  }

  /** One step of `GenUnits`: the unit in front, then what follows it. */
  lemma GenUnitsFront(s: string, g: Rng, k: Drawn, head: Out)
    requires IsAscii(s) && |s| > 0 && ReadUnit(s).Ok? && IsAscii(ReadUnit(s).value.item.token)
    requires Times(ReadUnit(s).value.item.quant, g) == Ok(k)
    requires Repeat(ReadUnit(s).value.item.token, k.n, k.rng) == Ok(head)
    ensures IsAscii(s[ReadUnit(s).value.used..])
    ensures GenUnits(s, g) == Prefixed(head.text, GenUnits(s[ReadUnit(s).value.used..], head.rng))
  {
    SliceBands(s, ReadUnit(s).value.used, |s|);
  }

  /** Any allowed samples, concatenated in order, are what `Repeat` returns
      under some plan. */
  lemma {:induction false} RepeatPlan(token: string, times: int, pieces: seq<string>) returns (plan: seq<nat>)
    requires IsAscii(token) && |pieces| == Reps(times) && Samples(token, pieces)
    ensures forall g :: Follows(g, plan) ==> Repeat(token, times, g) == Ok(Out(Concat(pieces), g.Skip(|plan|)))
    decreases |pieces|
  {
    if times <= 0 {
      plan := [];
    } else {
      assert CharacterSet.Allows(token, pieces[0]);
      var p1 := CharacterSet.SamplePlan(token, pieces[0]);
      assert Samples(token, pieces[1..]) by {
        forall i | 0 <= i < |pieces[1..]|
          ensures CharacterSet.Allows(token, pieces[1..][i])
        {
          assert pieces[1..][i] == pieces[i + 1];
        }
      }
      var p2 := RepeatPlan(token, times - 1, pieces[1..]);
      plan := p1 + p2;
      forall g | Follows(g, plan)
        ensures Repeat(token, times, g) == Ok(Out(Concat(pieces), g.Skip(|plan|)))
      {
        FollowsSplit(g, p1, p2);
        var h := g.Skip(|p1|);
        assert CharacterSet.Sample(token, g) == Ok(Out(pieces[0], h));
        assert Repeat(token, times - 1, h) == Ok(Out(Concat(pieces[1..]), h.Skip(|p2|)));
        assert h.Skip(|p2|) == g.Skip(|plan|);
        assert Concat(pieces) == pieces[0] + Concat(pieces[1..]);
        RepeatCons(token, times, g, Out(pieces[0], h), Out(Concat(pieces[1..]), h.Skip(|p2|)));
      }
    }
  }

  /** An explanation of `t` by the units of `s`, taken apart at the first
      unit: a count and samples for the front, the rest for what follows. */
  lemma ExplainsFront(s: string, t: string) returns (k: int, pieces: seq<string>, i: nat)
    requires IsAscii(s) && |s| > 0 && Tokenize(s).Ok? && Explains(Tokenize(s).value, t)
    ensures ReadUnit(s).Ok? && i <= |t|
    ensures IsAscii(ReadUnit(s).value.item.token) && IsAscii(s[ReadUnit(s).value.used..])
    ensures CountAllows(ReadUnit(s).value.item.quant, k) && |pieces| == Reps(k)
    ensures Samples(ReadUnit(s).value.item.token, pieces) && Concat(pieces) == t[..i]
    ensures Tokenize(s[ReadUnit(s).value.used..]).Ok?
    ensures Explains(Tokenize(s[ReadUnit(s).value.used..]).value, t[i..])
  {
    assert ReadUnit(s).Ok?;
    var u := ReadUnit(s).value;
    var rest := s[u.used..];
    var us := Tokenize(s).value;
    assert us == [u.item] + Tokenize(rest).value;
    assert us[1..] == Tokenize(rest).value;
    assert u.item.token == s[..u.used][..|u.item.token|];
    SliceBands(s, 0, |u.item.token|);
    SliceBands(s, u.used, |s|);
    i :| 0 <= i <= |t| && UnitAllows(u.item, t[..i]) && Explains(us[1..], t[i..]);
    k, pieces :| CountAllows(u.item.quant, k) && |pieces| == Reps(k) && Samples(u.item.token, pieces) && Concat(pieces) == t[..i];
  }

  /** Every string the units of `s` explain is what `GenUnits` returns
      under some plan. */
  lemma {:induction false} GenUnitsPlan(s: string, t: string) returns (plan: seq<nat>)
    requires IsAscii(s) && Tokenize(s).Ok? && Explains(Tokenize(s).value, t)
    ensures forall g :: Follows(g, plan) ==> GenUnits(s, g) == Ok(Out(t, g.Skip(|plan|)))
    decreases |s|
  {
    if |s| == 0 {
      plan := GenUnitsEmpty(s, t);
    } else {
      var k, pieces, i := ExplainsFront(s, t);
      var u := ReadUnit(s).value;
      var t1, t2 := t[..i], t[i..];
      CutJoin(t, i);
      var p1 := TimesPlan(u.item.quant, k);
      var p2 := RepeatPlan(u.item.token, k, pieces);
      var p3 := GenUnitsPlan(s[u.used..], t2);
      plan := GenUnitsChain(s, k, t, t1, t2, p1, p2, p3);
    }
  }

  /** An empty branch explains only the empty string, which it generates
      without drawing. */
  lemma GenUnitsEmpty(s: string, t: string) returns (plan: seq<nat>)
    requires |s| == 0 && Tokenize(s).Ok? && Explains(Tokenize(s).value, t)
    ensures forall g :: Follows(g, plan) ==> GenUnits(s, g) == Ok(Out(t, g.Skip(|plan|)))
  {
    plan := [];
    assert Tokenize(s).value == [];
    assert t == "";
    forall g | Follows(g, plan)
      ensures GenUnits(s, g) == Ok(Out(t, g.Skip(|plan|)))
    {
      assert g.Skip(0) == g;
    }
  }

  /** Plans for a unit's count, its samples and the rest of the branch,
      run back to back, make `GenUnits` produce the two texts in order. */
  lemma GenUnitsChain(s: string, k: int, t: string, t1: string, t2: string, p1: seq<nat>, p2: seq<nat>, p3: seq<nat>)
    returns (plan: seq<nat>)
    requires IsAscii(s) && |s| > 0 && ReadUnit(s).Ok? && IsAscii(ReadUnit(s).value.item.token) && t == t1 + t2
    requires forall h :: Follows(h, p1) ==> Times(ReadUnit(s).value.item.quant, h) == Ok(Drawn(k, h.Skip(|p1|)))
    requires forall h :: Follows(h, p2) ==> Repeat(ReadUnit(s).value.item.token, k, h) == Ok(Out(t1, h.Skip(|p2|)))
    requires forall h :: Follows(h, p3) ==> GenUnits(s[ReadUnit(s).value.used..], h) == Ok(Out(t2, h.Skip(|p3|)))
    ensures plan == p1 + p2 + p3
    ensures forall g :: Follows(g, plan) ==> GenUnits(s, g) == Ok(Out(t, g.Skip(|plan|)))
  {
    plan := p1 + p2 + p3;
    forall g | Follows(g, plan)
      ensures GenUnits(s, g) == Ok(Out(t, g.Skip(|plan|)))
    {
      FollowsSplit(g, p1 + p2, p3);
      FollowsSplit(g, p1, p2);
      var h1 := g.Skip(|p1|);
      var h2 := h1.Skip(|p2|);
      var h3 := h2.Skip(|p3|);
      assert g.Skip(|p1 + p2|) == h2;
      assert h3 == g.Skip(|plan|);
      GenUnitsFront(s, g, Drawn(k, h1), Out(t1, h2));
    }
  }

  /** Every string a pattern denotes is what `Generate` returns under some
      plan: one draw choosing the branch, then the branch's own draws. */
  lemma GeneratePlan(p: string, t: string) returns (plan: seq<nat>)
    requires IsAscii(p) && Allows(p, t)
    ensures forall g :: Follows(g, plan) ==> Generate(p, g) == Ok(Out(t, g.Skip(|plan|)))
  {
    var branches := Split(p, '|');
    SplitBands(p, '|');
    var j :| 0 <= j < |branches| && BranchAllows(branches[j], t);
    var rest := GenUnitsPlan(branches[j], t);
    if '|' in p {
      plan := GenerateChain(p, j, t, rest);
    } else {
      assert branches == [p];
      plan := rest;
    }
  }

  /** A draw choosing branch `j`, followed by a plan for that branch,
      makes `Generate` produce what the branch produces. */
  lemma GenerateChain(p: string, j: nat, t: string, rest: seq<nat>) returns (plan: seq<nat>)
    requires IsAscii(p) && '|' in p && j < |Split(p, '|')| && IsAscii(Split(p, '|')[j])
    requires forall h :: Follows(h, rest) ==> GenUnits(Split(p, '|')[j], h) == Ok(Out(t, h.Skip(|rest|)))
    ensures forall g :: Follows(g, plan) ==> Generate(p, g) == Ok(Out(t, g.Skip(|plan|)))
  {
    var first := [j];
    plan := first + rest;
    forall g | Follows(g, plan)
      ensures Generate(p, g) == Ok(Out(t, g.Skip(|plan|)))
    {
      FollowsSplit(g, first, rest);
      assert first[0] == j;
      assert g.draws(g.cursor + 0) == first[0];
      BranchChoice(p, j, g);
      assert g.Next() == g.Skip(1);
      assert g.Skip(1).Skip(|rest|) == g.Skip(|plan|);
    }
  }

  /** The outcomes of `Generate` are exactly the strings its pattern
      denotes: each is produced by some random source, and no other is. */
  lemma GenerateOutcomes(p: string, t: string)
    requires IsAscii(p)
    ensures Allows(p, t) <==> exists g :: Generate(p, g).Ok? && Generate(p, g).value.text == t
  {
    if Allows(p, t) {
      var plan := GeneratePlan(p, t);
      var g := Scripted(plan);
      assert Generate(p, g).value.text == t;
    }
    forall g | Generate(p, g).Ok? && Generate(p, g).value.text == t
      ensures Allows(p, t)
    {
      GenerateSound(p, g);
    }
  }

  /** `r` with `x` put in front of its text; errors pass through. */
  function Prefixed(x: string, r: Result<Out>): Result<Out> {
    if r.Ok? then Ok(Out(x + r.value.text, r.value.rng)) else r
  }

  /** A unit quantified `{0}` contributes nothing and draws nothing, even
      when its class could not be sampled at all (gojek.py:201, 204). */
  lemma ZeroCountSkipsUnit(t: string, rest: string, g: Rng)
    requires WellFormedToken(t) && IsAscii(t) && IsAscii(rest)
    ensures IsAscii(t + "{0}" + rest)
    ensures GenUnits(t + "{0}" + rest, g) == GenUnits(rest, g)
  {
    var s := t + "{0}" + rest;
    var u := Unit(t, Braced("0"));
    assert QuantText(u.quant) == "{0}";
    assert UnitText(u) + rest == s;
    ConcatBands(t, "{0}");
    ConcatBands(t + "{0}", rest);
    ReadUnitOf(u, rest);
    ZeroTimes(g);
    assert s[|UnitText(u)|..] == rest;
    GenUnitsFront(s, g, Drawn(0, g), Out("", g));
    PrefixedEmpty(GenUnits(rest, g));
  }

  lemma PrefixedEmpty(r: Result<Out>)
    ensures Prefixed("", r) == r
  {
    if r.Ok? {
      assert "" + r.value.text == r.value.text;
    }
  }

  lemma ZeroTimes(g: Rng)
    ensures Times(Braced("0"), g) == Ok(Drawn(0, g))
  {
    Quantifier.CountExact(0, g);
    assert Quantifier.Decimal(0) == "0";
  }

  /** A token with no quantifier after it is sampled exactly once, before
      the rest of the branch is generated (gojek.py:186, 204-205). */
  lemma UnquantifiedOnce(t: string, rest: string, g: Rng)
    requires WellFormedToken(t) && IsAscii(t) && IsAscii(rest)
    requires |rest| == 0 || !IsQuantStart(rest[0])
    ensures IsAscii(t + rest)
    ensures CharacterSet.Sample(t, g).Err? ==> GenUnits(t + rest, g) == Err(CharacterSet.Sample(t, g).error)
    ensures CharacterSet.Sample(t, g).Ok? ==>
      GenUnits(t + rest, g) == Prefixed(CharacterSet.Sample(t, g).value.text, GenUnits(rest, CharacterSet.Sample(t, g).value.rng))
  {
    var s := t + rest;
    var u := Unit(t, Once);
    assert UnitText(u) == t;
    ConcatBands(t, rest);
    ReadUnitOf(u, rest);
    assert s[|t|..] == rest;
    var o := CharacterSet.Sample(t, g);
    if o.Ok? {
      RepeatCons(t, 1, g, o.value, Out("", o.value.rng));
      assert o.value.text + "" == o.value.text;
      GenUnitsFront(s, g, Drawn(1, g), o.value);
    } else {
      assert Repeat(t, 1, g).Err?;
    }
  }

  /** With several branches, the branch numbered by the first draw is the
      one generated, from the next draw on; every branch can be chosen
      (gojek.py:159-162). */
  lemma BranchChoice(p: string, j: nat, g: Rng)
    requires IsAscii(p) && '|' in p
    requires j < |Split(p, '|')| && g.draws(g.cursor) == j
    ensures IsAscii(Split(p, '|')[j])
    ensures Generate(p, g) == GenUnits(Split(p, '|')[j], g.Next())
  {
    SplitBands(p, '|');
    WrapSmall(j, |Split(p, '|')|);
  }

  /** Text with none of the characters the generator treats specially
      outside a bracket: it stands for itself. */
  predicate Plain(s: string) {
    forall i :: 0 <= i < |s| ==> s[i] !in "[(.{?+*|"
  }

  /** Plain text is generated as itself, drawing nothing: every character
      is a token of its own without a quantifier (gojek.py:79-80, 179-180). */
  lemma {:induction false} PlainUnits(s: string, g: Rng)
    requires IsAscii(s) && Plain(s)
    ensures GenUnits(s, g) == Ok(Out(s, g))
    decreases |s|
  {
    if |s| > 0 {
      var t, rest := [s[0]], s[1..];
      assert s == t + rest;
      SliceBands(s, 0, 1);
      SliceBands(s, 1, |s|);
      assert s[..1] == t;
      assert s[0] !in "[(.{?+*|";
      assert |rest| > 0 ==> rest[0] == s[1] && s[1] !in "[(.{?+*|";
      assert Plain(rest) by {
        forall i | 0 <= i < |rest|
          ensures rest[i] !in "[(.{?+*|"
        {
          assert rest[i] == s[i + 1];
        }
      }
      UnquantifiedOnce(t, rest, g);
      assert CharacterSet.Sample(t, g) == Ok(Out(t, g));
      PlainUnits(rest, g);
    }
  }
}
