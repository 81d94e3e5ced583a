/** One class token turned into one sample: `_CharacterSet` in gojek.py.
    A bracket token `[...]` is scanned into single characters and
    alphanumeric-led ranges, optionally complemented against a fixed
    printable universe, and one member is drawn. The other token shapes
    (`.`, a `(literal)` run, a lone character) need no scanning. */
module CharacterSet {
  import opened Base
  import opened Random

  /** Python's `str.isalnum`, restricted to the ASCII alphabet. */
  predicate IsAlnum(c: char) {
    ('0' <= c <= '9') || ('A' <= c <= 'Z') || ('a' <= c <= 'z')
  }

  /** One element of a bracket body as the scanner reads it: a character
      taken on its own, or an inclusive range `first-last`. */
  datatype ClassItem = Single(c: char) | Span(first: char, last: char)

  /** The text an item was read from. */
  function ItemText(it: ClassItem): string {
    match it
    case Single(c) => [c]
    case Span(a, b) => [a, '-', b]
  }

  function ItemsText(items: seq<ClassItem>): string {
    if |items| == 0 then "" else ItemText(items[0]) + ItemsText(items[1..])
  }

  /** The scanner's reading discipline: a range starts only at an
      alphanumeric character, and an alphanumeric taken on its own is never
      followed by a lone `-` (that would have started a range). */
  predicate Greedy(items: seq<ClassItem>) {
    && (forall j :: 0 <= j < |items| && items[j].Span? ==> IsAlnum(items[j].first))
    && (forall j :: 0 <= j < |items| - 1 && items[j].Single? && IsAlnum(items[j].c) ==> items[j + 1] != Single('-'))
  }

  /** The scanning loop of gojek.py:90-106 over the body of a bracket token:
      an alphanumeric followed by `-` opens a range whose end is the next
      character (IndexError when there is none); anything else is taken on
      its own. */
  function ScanClass(body: string): (r: Result<seq<ClassItem>>)
    ensures r.Ok? ==> ItemsText(r.value) == body && Greedy(r.value)
    ensures r.Err? ==> r.error == IndexError
    decreases |body|
  {
    if |body| == 0 then Ok([])
    else if IsAlnum(body[0]) && |body| >= 2 && body[1] == '-' then
      if |body| == 2 then Err(IndexError)
      else
        var rest :- ScanClass(body[3..]);
        assert body == [body[0], '-', body[2]] + body[3..];
        Ok([Span(body[0], body[2])] + rest)
    else
      var rest :- ScanClass(body[1..]);
      assert body == [body[0]] + body[1..];
      assert |rest| > 0 ==> ItemText(rest[0])[0] == body[1];
      Ok([Single(body[0])] + rest)
  }

  /** The scan is the only greedy reading of a body: scanning the text of
      any greedy item sequence gives that sequence back. */
  lemma {:induction false} ScanClassUnique(items: seq<ClassItem>)
    requires Greedy(items)
    ensures ScanClass(ItemsText(items)) == Ok(items)
  {
    if |items| > 0 {
      GreedyTail(items);
      ScanClassUnique(items[1..]);
      if items[0].Single? {
        ScanSingle(items);
      } else {
        ScanSpan(items);
      }
    }
  }

  /** The scanner's discipline holds of every suffix. */
  lemma GreedyTail(items: seq<ClassItem>)
    requires |items| > 0 && Greedy(items)
    ensures Greedy(items[1..])
  {
    var rest := items[1..];
    forall j | 0 <= j < |rest|
      ensures rest[j] == items[j + 1]
    {
    }
  }

  /** A lone character in front of a scanned remainder is read on its own. */
  lemma ScanSingle(items: seq<ClassItem>)
    requires |items| > 0 && items[0].Single? && Greedy(items)
    requires ScanClass(ItemsText(items[1..])) == Ok(items[1..])
    ensures ScanClass(ItemsText(items)) == Ok(items)
  {
    var c := items[0].c;
    var rest := items[1..];
    var body := ItemsText(items);
    assert body == [c] + ItemsText(rest);
    assert body[1..] == ItemsText(rest);
    if |rest| > 0 {
      assert rest[0] == items[1];
      assert body[1] == ItemText(rest[0])[0];
      if IsAlnum(c) {
        assert rest[0] != Single('-');
        assert rest[0].Span? ==> IsAlnum(rest[0].first);
      }
    }
    assert items == [Single(c)] + rest;
  }

  /** A range in front of a scanned remainder is read as one item. */
  lemma ScanSpan(items: seq<ClassItem>)
    requires |items| > 0 && items[0].Span? && Greedy(items)
    requires ScanClass(ItemsText(items[1..])) == Ok(items[1..])
    ensures ScanClass(ItemsText(items)) == Ok(items)
  {
    var a, b := items[0].first, items[0].last;
    var rest := items[1..];
    var body := ItemsText(items);
    assert IsAlnum(a);
    assert body == [a, '-', b] + ItemsText(rest);
    assert body[3..] == ItemsText(rest);
    assert items == [Span(a, b)] + rest;
  }

  /** A bracket body fails to scan exactly when no greedy reading of it exists. */
  lemma ScanClassFailsIff(body: string)
    ensures ScanClass(body).Err? <==> !exists items :: Greedy(items) && ItemsText(items) == body
  {
    if exists items :: Greedy(items) && ItemsText(items) == body {
      var items :| Greedy(items) && ItemsText(items) == body;
      ScanClassUnique(items);
    }
  }

  /** The codes an item contributes: Python's `range(ord(first), ord(last) + 1)`
      for a range, which is empty when `last` sorts before `first`. */
  function ItemCodes(it: ClassItem): set<int> {
    match it
    case Single(c) => {c as int}
    case Span(a, b) => Interval(a as int, b as int)
  }

  /** The closed range `[lo, hi]` of codes; empty when `hi < lo`. */
  function Interval(lo: int, hi: int): (s: set<int>)
    ensures forall x :: x in s <==> lo <= x <= hi
    decreases hi - lo
  {
    if hi < lo then {} else Interval(lo, hi - 1) + {hi}
  }

  /** The set `choices` accumulated by the scanning loop. */
  function Members(items: seq<ClassItem>): (s: set<int>)
    ensures forall x :: x in s <==> exists j :: 0 <= j < |items| && x in ItemCodes(items[j])
  {
    if |items| == 0 then {}
    else
      var s := ItemCodes(items[0]) + Members(items[1..]);
      assert forall j :: 1 <= j < |items| ==> items[j] == items[1..][j - 1];
      s
  }

  /** Codes drawn from a band stay in that band: every member of a scanned
      set lies between the smallest and largest code of the body's text. */
  lemma {:induction false} MembersWithin(items: seq<ClassItem>, lo: int, hi: int)
    requires AllIn(ItemsText(items), lo, hi)
    ensures forall x :: x in Members(items) ==> lo <= x <= hi
  {
    if |items| > 0 {
      var head := ItemText(items[0]);
      AllInSlice(ItemsText(items), 0, |head|, lo, hi);
      AllInSlice(ItemsText(items), |head|, |ItemsText(items)|, lo, hi);
      assert ItemsText(items)[..|head|] == head;
      assert ItemsText(items)[|head|..] == ItemsText(items[1..]);
      MembersWithin(items[1..], lo, hi);
      match items[0]
      case Single(c) =>
        assert head[0] == c;
      case Span(a, b) =>
        assert head[0] == a && head[2] == b;
    }
  }

  /** The universe a negated class is complemented against: Python's
      `range(32, 126)`, that is codes 32 to 125, so `~` (126) is never in it. */
  function Universe(): set<int> {
    Interval(32, 125)
  }

  /** `_negate_choices` (gojek.py:62-67): the universe less the listed codes;
      removing a code the universe lacks raises KeyError. */
  function Negate(listed: set<int>): (r: Result<set<int>>)
    ensures r.Ok? <==> forall x :: x in listed ==> 32 <= x <= 125
    ensures r.Err? ==> r.error == KeyError
    ensures r.Ok? ==> forall x :: x in r.value <==> 32 <= x <= 125 && x !in listed
  {
    if listed <= Universe() then Ok(Universe() - listed) else Err(KeyError)
  }

  /** The set a bracket body resolves to (gojek.py:83-109): IndexError on an
      empty body or a range missing its end; a leading `^` negates, yet is
      not stripped, so it is itself one of the listed characters. */
  function Resolve(body: string): (r: Result<set<int>>)
    ensures r.Ok? ==> |body| > 0 && ScanClass(body).Ok?
    ensures |body| > 0 && body[0] != '^' && ScanClass(body).Ok? ==> r == Ok(Members(ScanClass(body).value))
    ensures |body| > 0 && body[0] == '^' && ScanClass(body).Ok? ==> r == Negate(Members(ScanClass(body).value))
    ensures r.Err? ==> r.error != ValueError
  {
    if |body| == 0 then Err(IndexError)
    else
      var items :- ScanClass(body);
      if body[0] == '^' then Negate(Members(items)) else Ok(Members(items))
  }

  /** A negated class never yields a listed character, never yields `^`
      (which stays in the scanned text), and stays within codes 32 to 125. */
  lemma NegatedClass(body: string)
    requires |body| > 0 && body[0] == '^' && Resolve(body).Ok?
    ensures forall x :: x in Resolve(body).value ==> 32 <= x <= 125
    ensures forall x :: x in Resolve(body).value ==> x !in Members(ScanClass(body).value)
    ensures '^' as int !in Resolve(body).value
  {
    var items := ScanClass(body).value;
    assert ItemsText(items)[0] == '^';
    assert ItemsText(items) == ItemText(items[0]) + ItemsText(items[1..]);
    assert items[0] == Single('^');
    assert '^' as int in ItemCodes(items[0]);
  }

  /** A negated class fails with KeyError exactly when some listed
      character lies outside codes 32 to 125 (`~` included). */
  lemma NegatedClassFails(body: string, items: seq<ClassItem>)
    requires |body| > 0 && body[0] == '^' && ScanClass(body) == Ok(items)
    ensures Resolve(body).Err? <==> exists x :: x in Members(items) && !(32 <= x <= 125)
    ensures Resolve(body).Err? ==> Resolve(body).error == KeyError
  {
    ResolveNegated(body, items);
  }

  lemma ResolveNegated(body: string, items: seq<ClassItem>)
    requires |body| > 0 && body[0] == '^' && ScanClass(body) == Ok(items)
    ensures Resolve(body) == Negate(Members(items))
  {
  }

  /** The possible results of one sample of `token`, as gojek.py:72-114 promises. */
  ghost predicate Allows(token: string, t: string) {
    if token == "." then |t| == 1 && 32 <= t[0] as int <= 126
    else if |token| == 0 then false
    else if token[0] == '(' then t == Inner(token)
    else if token[0] != '[' then t == token
    else
      var s := Resolve(Inner(token));
      s.Ok? && |t| == 1 && t[0] as int in s.value
  }

  /** gojek.py:83-114 for a bracket token with body `body`: resolve the
      set, then draw one member; ValueError when the set is empty. */
  function Draw(body: string, g: Rng): (r: Result<Out>)
    requires IsAscii(body)
    ensures r.Ok? <==> Resolve(body).Ok? && Resolve(body).value != {}
    ensures r.Err? && Resolve(body).Ok? ==> r.error == ValueError
    ensures r.Ok? ==> |r.value.text| == 1 && r.value.text[0] as int in Resolve(body).value
    ensures r.Ok? ==> IsAscii(r.value.text) && (IsPrintable(body) ==> IsPrintable(r.value.text))
  {
    var s :- Resolve(body);
    BodyCodes(body);
    var d :- Pick(s, g);
    CodeChar(d.n);
    Ok(Out([d.n as char], d.rng))
  }

  /** The one-character string of an ASCII code. */
  lemma CodeChar(x: int)
    requires 0 <= x <= 127
    ensures [x as char][0] as int == x && IsAscii([x as char])
    ensures 32 <= x <= 126 ==> IsPrintable([x as char])
  {
  }

  /** `_CharacterSet.generate` (gojek.py:69-114). */
  function Sample(token: string, g: Rng): (r: Result<Out>)
    requires IsAscii(token)
    ensures token == "." ==> r.Ok? && |r.value.text| == 1 && 32 <= r.value.text[0] as int <= 126
    ensures |token| == 0 ==> r == Err(IndexError)
    ensures token != "." && |token| > 0 && token[0] != '[' ==> r.Ok? && r.value.rng == g
    ensures |token| > 0 && token[0] == '(' ==> r.Ok? && r.value.text == Inner(token)
    ensures |token| > 0 && token[0] != '(' && token[0] != '[' && token != "." ==> r.Ok? && r.value.text == token
    ensures |token| > 0 && token[0] == '[' ==> r == Draw(Inner(token), g)
    ensures r.Ok? ==> IsAscii(r.value.text) && (IsPrintable(token) ==> IsPrintable(r.value.text))
  {
    if token == "." then
      var d := RandInt(g, 32, 126).value;
      Ok(Out([d.n as char], d.rng))
    else if |token| == 0 then Err(IndexError)
    else if token[0] == '(' then
      InnerBands(token);
      Ok(Out(Inner(token), g))
    else if token[0] != '[' then Ok(Out(token, g))
    else
      InnerBands(token);
      Draw(Inner(token), g)
  }

  /** Bodies in a band resolve to codes in that band (printable bodies to
      printable codes, ASCII bodies to ASCII codes). */
  lemma BodyCodes(body: string)
    requires Resolve(body).Ok?
    ensures forall x :: x in Resolve(body).value && IsAscii(body) ==> 0 <= x <= 127
    ensures forall x :: x in Resolve(body).value && IsPrintable(body) ==> 32 <= x <= 126
  {
    var items := ScanClass(body).value;
    if IsAscii(body) {
      MembersWithin(items, 0, 127);
    }
    if IsPrintable(body) {
      MembersWithin(items, 32, 126);
    }
  }

  /** The outcomes of `Sample` are exactly the results `Allows` describes:
      each is produced by some random source, and no other string is. */
  lemma SampleOutcomes(token: string, t: string)
    requires IsAscii(token)
    ensures Allows(token, t) <==> exists g :: Sample(token, g).Ok? && Sample(token, g).value.text == t
  {
    if Allows(token, t) {
      if token == "." {
        RandIntReaches(32, 126, t[0] as int);
        var g :| RandInt(g, 32, 126) == Ok(Drawn(t[0] as int, g.Next()));
        assert [t[0] as int as char] == t;
        assert Sample(token, g).value.text == t;
      } else if token[0] == '(' || token[0] != '[' {
        var g := Rng((_: nat) => 0, 0);
        assert Sample(token, g).value.text == t;
      } else {
        var s := Resolve(Inner(token)).value;
        AllInInner(token, 0, 127);
        BodyCodes(Inner(token));
        PickReaches(s, t[0] as int);
        var g :| Pick(s, g) == Ok(Drawn(t[0] as int, g.Next()));
        assert [t[0] as int as char] == t;
        assert Sample(token, g).value.text == t;
      }
    }
  }

  /** Any string `Allows` describes is what `Sample` returns under a plan of
      at most one draw; plans for consecutive samples compose. */
  lemma SamplePlan(token: string, t: string) returns (plan: seq<nat>)
    requires IsAscii(token) && Allows(token, t)
    ensures |plan| <= 1
    ensures forall g :: Follows(g, plan) ==> Sample(token, g) == Ok(Out(t, g.Skip(|plan|)))
  {
    if token == "." {
      plan := RandIntPlan(32, 126, t[0] as int);
      assert [t[0] as int as char] == t;
    } else if token[0] == '(' || token[0] != '[' {
      plan := [];
    } else {
      var s := Resolve(Inner(token)).value;
      AllInInner(token, 0, 127);
      BodyCodes(Inner(token));
      plan := PickPlan(s, t[0] as int);
      assert [t[0] as int as char] == t;
    }
  }
}
