/** Some patterns from the generator's documentation and unit tests, or
    fragments of them, with what every random choice makes of them. */
module Instances {
  import opened Base
  import opened Random
  import CharacterSet
  import Quantifier
  import SimplePattern
  import CompoundPattern

  /** A bracket token over a plain (non-negated) body draws from the
      members of the body's greedy reading. */
  lemma BracketDraws(body: string, items: seq<CharacterSet.ClassItem>, g: Rng)
    requires IsAscii(body) && |body| > 0 && body[0] != '^'
    requires CharacterSet.Greedy(items) && CharacterSet.ItemsText(items) == body
    ensures IsAscii("[" + body + "]")
    ensures CharacterSet.Sample("[" + body + "]", g) == CharacterSet.Draw(body, g)
    ensures CharacterSet.Resolve(body) == Ok(CharacterSet.Members(items))
  {
    CharacterSet.ScanClassUnique(items);
    ConcatBands("[", body);
    ConcatBands("[" + body, "]");
    assert Inner("[" + body + "]") == body;
  }

  /** The bracket token around `body`, spelt out character by character. */
  lemma Bracketed(body: string, token: string)
    requires |token| == |body| + 2 && token[0] == '[' && token[|token| - 1] == ']'
    requires forall i :: 0 <= i < |body| ==> token[i + 1] == body[i]
    ensures "[" + body + "]" == token
  {
  }

  /** `[0-9ca-b]`: ranges and single characters mixed in one class. */
  lemma DigitsAndLetters(g: Rng)
    ensures CharacterSet.Sample("[0-9ca-b]", g).Ok?
    ensures var t := CharacterSet.Sample("[0-9ca-b]", g).value.text;
      |t| == 1 && (('0' <= t[0] <= '9') || ('a' <= t[0] <= 'c'))
  {
    Bracketed("0-9ca-b", "[0-9ca-b]");
    var items := DigitItems();
    BracketDraws("0-9ca-b", items, g);
    assert 48 in CharacterSet.Members(items);
    var r := CharacterSet.Draw("0-9ca-b", g);
    assert r.Ok?;
    var t := r.value.text;
    assert |t| == 1 && (('0' <= t[0] <= '9') || ('a' <= t[0] <= 'c'));
    assert CharacterSet.Sample("[0-9ca-b]", g) == r;
  }

  /** The greedy reading of `0-9ca-b` and the codes it lists. */
  lemma DigitItems() returns (items: seq<CharacterSet.ClassItem>)
    ensures CharacterSet.Greedy(items) && CharacterSet.ItemsText(items) == "0-9ca-b"
    ensures forall x :: x in CharacterSet.Members(items) <==> 48 <= x <= 57 || 97 <= x <= 99
  {
    items := [CharacterSet.Span('0', '9'), CharacterSet.Single('c'), CharacterSet.Span('a', 'b')];
    DigitText(items);
    SpanCodes('0', '9');
    SpanCodes('a', 'b');
    MembersOfThree(CharacterSet.Span('0', '9'), CharacterSet.Single('c'), CharacterSet.Span('a', 'b'));
  }

  lemma DigitText(items: seq<CharacterSet.ClassItem>)
    requires items == [CharacterSet.Span('0', '9'), CharacterSet.Single('c'), CharacterSet.Span('a', 'b')]
    ensures CharacterSet.ItemsText(items) == "0-9ca-b"
  {
    assert CharacterSet.ItemsText(items[2..]) == "a-b";
    assert CharacterSet.ItemsText(items[1..]) == "ca-b";
  }

  lemma SpanCodes(a: char, b: char)
    ensures forall x :: x in CharacterSet.ItemCodes(CharacterSet.Span(a, b)) <==> a as int <= x <= b as int
  {
  }

  lemma MembersOfThree(a: CharacterSet.ClassItem, b: CharacterSet.ClassItem, c: CharacterSet.ClassItem)
    ensures CharacterSet.Members([a, b, c]) == CharacterSet.ItemCodes(a) + CharacterSet.ItemCodes(b) + CharacterSet.ItemCodes(c)
  {
    assert [a, b, c][1..] == [b, c];
    assert [b, c][1..] == [c];
    assert [c][1..] == [];
    assert CharacterSet.Members([c]) == CharacterSet.ItemCodes(c);
    assert CharacterSet.Members([b, c]) == CharacterSet.ItemCodes(b) + CharacterSet.ItemCodes(c);
  }

  /** `[-+]`: a `-` that does not follow an alphanumeric is a member itself. */
  lemma SignClass(g: Rng)
    ensures CharacterSet.Sample("[-+]", g).Ok?
    ensures CharacterSet.Sample("[-+]", g).value.text in {"-", "+"}
  {
    var items := [CharacterSet.Single('-'), CharacterSet.Single('+')];
    Bracketed("-+", "[-+]");
    SignItems(items);
    BracketDraws("-+", items, g);
    var r := CharacterSet.Draw("-+", g);
    assert r.Ok?;
    var t := r.value.text;
    assert t[0] == '-' || t[0] == '+';
    assert t == ['-'] || t == ['+'];
    assert CharacterSet.Sample("[-+]", g) == r;
  }

  lemma SignItems(items: seq<CharacterSet.ClassItem>)
    requires items == [CharacterSet.Single('-'), CharacterSet.Single('+')]
    ensures IsAscii("-+") && CharacterSet.Greedy(items) && CharacterSet.ItemsText(items) == "-+"
    ensures CharacterSet.Members(items) == {45, 43}
  {
    assert items[1..] == [CharacterSet.Single('+')];
    assert CharacterSet.ItemsText(items[1..]) == "+";
    assert CharacterSet.Members(items[1..]) == {43};
  }

  /** `[A-Z0-9._%+-]`: the trailing `-` follows `+`, not an alphanumeric,
      so it is a member and not the start of a range. */
  lemma EmailClass(g: Rng)
    ensures CharacterSet.Sample("[A-Z0-9._%+-]", g).Ok?
    ensures exists h :: CharacterSet.Sample("[A-Z0-9._%+-]", h) == Ok(Out("-", h.Next()))
  {
    var body := "A-Z0-9._%+-";
    Bracketed(body, "[A-Z0-9._%+-]");
    var items := EmailItems();
    EmailAscii();
    ClassReaches(body, items, 45, g);
    assert [45 as char] == "-";
  }

  /** Every member of a plain bracket class is drawn by some source, and
      the class draws something from every source. */
  lemma ClassReaches(body: string, items: seq<CharacterSet.ClassItem>, x: int, g: Rng)
    requires IsAscii(body) && |body| > 0 && body[0] != '^'
    requires CharacterSet.Greedy(items) && CharacterSet.ItemsText(items) == body
    requires x in CharacterSet.Members(items) && 0 <= x < 128
    ensures IsAscii("[" + body + "]")
    ensures CharacterSet.Sample("[" + body + "]", g).Ok?
    ensures exists h :: CharacterSet.Sample("[" + body + "]", h) == Ok(Out([x as char], h.Next()))
  {
    BracketDraws(body, items, g);
    var m := CharacterSet.Members(items);
    CharacterSet.BodyCodes(body);
    PickReaches(m, x);
    var h :| Pick(m, h) == Ok(Drawn(x, h.Next()));
    BracketDraws(body, items, h);
    assert CharacterSet.Draw(body, h) == Ok(Out([x as char], h.Next()));
  }

  lemma EmailAscii()
    ensures IsAscii("A-Z0-9._%+-")
  {
  }

  /** The greedy reading of `A-Z0-9._%+-`; its last item is the `-`. */
  lemma EmailItems() returns (items: seq<CharacterSet.ClassItem>)
    ensures CharacterSet.Greedy(items) && CharacterSet.ItemsText(items) == "A-Z0-9._%+-"
    ensures 45 in CharacterSet.Members(items)
  {
    items := [CharacterSet.Span('A', 'Z'), CharacterSet.Span('0', '9'), CharacterSet.Single('.'),
              CharacterSet.Single('_'), CharacterSet.Single('%'), CharacterSet.Single('+'), CharacterSet.Single('-')];
    EmailText(items);
    EmailGreedy(items);
    assert items[6] == CharacterSet.Single('-');
    MemberOf(items, 6, 45);
  }

  lemma EmailText(items: seq<CharacterSet.ClassItem>)
    requires items == [CharacterSet.Span('A', 'Z'), CharacterSet.Span('0', '9'), CharacterSet.Single('.'),
                       CharacterSet.Single('_'), CharacterSet.Single('%'), CharacterSet.Single('+'), CharacterSet.Single('-')]
    ensures CharacterSet.ItemsText(items) == "A-Z0-9._%+-"
  {
    assert CharacterSet.ItemsText(items[6..]) == "-";
    assert CharacterSet.ItemsText(items[5..]) == "+-";
    assert CharacterSet.ItemsText(items[4..]) == "%+-";
    assert CharacterSet.ItemsText(items[3..]) == "_%+-";
    assert CharacterSet.ItemsText(items[2..]) == "._%+-";
    assert CharacterSet.ItemsText(items[1..]) == "0-9._%+-";
  }

  lemma EmailGreedy(items: seq<CharacterSet.ClassItem>)
    requires items == [CharacterSet.Span('A', 'Z'), CharacterSet.Span('0', '9'), CharacterSet.Single('.'),
                       CharacterSet.Single('_'), CharacterSet.Single('%'), CharacterSet.Single('+'), CharacterSet.Single('-')]
    ensures CharacterSet.Greedy(items)
  {
  }

  /** A code one item lists is a member of the class. */
  lemma MemberOf(items: seq<CharacterSet.ClassItem>, j: nat, x: int)
    requires j < |items| && x in CharacterSet.ItemCodes(items[j])
    ensures x in CharacterSet.Members(items)
  {
  }

  /** A bracket token over a negated body draws from the printable codes
      32..125 outside the body's members. */
  lemma BracketNegated(body: string, items: seq<CharacterSet.ClassItem>, g: Rng)
    requires IsAscii(body) && |body| > 0 && body[0] == '^'
    requires CharacterSet.Greedy(items) && CharacterSet.ItemsText(items) == body
    ensures IsAscii("[" + body + "]")
    ensures CharacterSet.Sample("[" + body + "]", g) == CharacterSet.Draw(body, g)
    ensures CharacterSet.Resolve(body) == CharacterSet.Negate(CharacterSet.Members(items))
  {
    CharacterSet.ScanClassUnique(items);
    CharacterSet.ResolveNegated(body, items);
    ConcatBands("[", body);
    ConcatBands("[" + body, "]");
    assert Inner("[" + body + "]") == body;
  }

  /** `[^a-yA-Y]`: a negated class yields neither a listed letter nor `^`
      nor `~`, and here always succeeds. */
  lemma NegatedLetters(g: Rng)
    ensures OutsideLetters(CharacterSet.Sample("[^a-yA-Y]", g))
  {
    var body := "^a-yA-Y";
    Bracketed(body, "[^a-yA-Y]");
    var items := LetterItems();
    BracketNegated(body, items, g);
    NegateLetters(CharacterSet.Members(items));
    var r := CharacterSet.Draw(body, g);
    assert r.Ok?;
    assert CharacterSet.Sample("[^a-yA-Y]", g) == r;
  }

  /** A success of one character in codes 32 to 125 that is not `^` and
      not a letter `a`..`y` or `A`..`Y`. */
  predicate OutsideLetters(r: Result<Out>) {
    && r.Ok? && |r.value.text| == 1
    && var c := r.value.text[0];
       32 <= c as int <= 125 && c != '^' && !('a' <= c <= 'y') && !('A' <= c <= 'Y')
  }

  /** What negating `^`, `a`..`y` and `A`..`Y` leaves. */
  lemma NegateLetters(m: set<int>)
    requires forall x :: x in m <==> x == 94 || 97 <= x <= 121 || 65 <= x <= 89
    ensures CharacterSet.Negate(m).Ok? && 122 in CharacterSet.Negate(m).value
    ensures forall x :: x in CharacterSet.Negate(m).value ==>
      32 <= x <= 125 && x != 94 && !(97 <= x <= 121) && !(65 <= x <= 89)
  {
  }

  /** The greedy reading of `^a-yA-Y` and the codes it lists. */
  lemma LetterItems() returns (items: seq<CharacterSet.ClassItem>)
    ensures CharacterSet.Greedy(items) && CharacterSet.ItemsText(items) == "^a-yA-Y"
    ensures forall x :: x in CharacterSet.Members(items) <==> x == 94 || 97 <= x <= 121 || 65 <= x <= 89
  {
    items := [CharacterSet.Single('^'), CharacterSet.Span('a', 'y'), CharacterSet.Span('A', 'Y')];
    assert CharacterSet.ItemsText(items[2..]) == "A-Y";
    assert CharacterSet.ItemsText(items[1..]) == "a-yA-Y";
    SingleThenSpans('^', 'a', 'y', 'A', 'Y');
    assert CharacterSet.ItemsText(items) == "^a-yA-Y";
    assert CharacterSet.Greedy(items);
    assert forall x :: x in CharacterSet.Members(items) <==> x == 94 || 97 <= x <= 121 || 65 <= x <= 89;
  }

  lemma SingleThenSpans(c: char, a1: char, b1: char, a2: char, b2: char)
    ensures forall x :: (x in CharacterSet.Members([CharacterSet.Single(c), CharacterSet.Span(a1, b1), CharacterSet.Span(a2, b2)])
      <==> x == c as int || a1 as int <= x <= b1 as int || a2 as int <= x <= b2 as int)
  {
    SpanCodes(a1, b1);
    SpanCodes(a2, b2);
    MembersOfThree(CharacterSet.Single(c), CharacterSet.Span(a1, b1), CharacterSet.Span(a2, b2));
  }

  /** `[^~]`: `~` (126) lies outside the negation universe 32..125, so
      removing it raises KeyError. */
  lemma TildeNegation(g: Rng)
    ensures CharacterSet.Sample("[^~]", g) == Err(KeyError)
  {
    var items := [CharacterSet.Single('^'), CharacterSet.Single('~')];
    assert CharacterSet.ItemsText(items) == "^~";
    CharacterSet.ScanClassUnique(items);
    assert Inner("[^~]") == "^~";
    CharacterSet.NegatedClassFails("^~", items);
    assert 126 in CharacterSet.Members(items);
  }

  /** `[z-a]`: a range running backwards is empty, and drawing from the
      empty set raises ValueError. */
  lemma ReversedRange(g: Rng)
    ensures CharacterSet.Sample("[z-a]", g) == Err(ValueError)
  {
    var items := [CharacterSet.Span('z', 'a')];
    assert CharacterSet.ItemsText(items) == "z-a";
    CharacterSet.ScanClassUnique(items);
    assert Inner("[z-a]") == "z-a";
    assert CharacterSet.Resolve("z-a").value == {};
  }

  /** `{5, 15}`: `int()` ignores the space after the comma. */
  lemma SpacedRange(g: Rng)
    ensures Quantifier.Count("{5, 15}", g).Ok?
    ensures 5 <= Quantifier.Count("{5, 15}", g).value.n <= 15
  {
    SpacedParts();
    assert Quantifier.Unbrace("{5, 15}") == "5, 15";
    assert Quantifier.Parse("{5, 15}") == Ok(Quantifier.Between(5, 15));
  }

  /** The two halves of `5, 15` and the numbers `int()` reads from them. */
  lemma SpacedParts()
    ensures Inner("{5, 15}") == "5, 15" && ',' in "5, 15"
    ensures Split("5, 15", ',') == ["5", " 15"]
    ensures Quantifier.ParseInt("5") == Ok(5) && Quantifier.ParseInt(" 15") == Ok(15)
  {
    assert "5, 15" == "5" + [','] + " 15";
    SplitTwo("5", " 15", ',');
    ReadsFive();
    ReadsFifteen();
  }

  lemma ReadsFive()
    ensures Quantifier.ParseInt("5") == Ok(5)
  {
    Quantifier.ParseDecimal(5);
    assert Quantifier.Decimal(5) == "5";
  }

  lemma ReadsFifteen()
    ensures Quantifier.ParseInt(" 15") == Ok(15)
  {
    Quantifier.ParseDecimal(15);
    assert Quantifier.Decimal(15) == "15";
    Quantifier.ParseIgnoresSpace("15", ' ');
    assert [' '] + "15" == " 15";
  }

  /** `Python is fun` has no special characters and generates itself. */
  lemma PlainSentence(g: Rng)
    ensures CompoundPattern.Generate("Python is fun", g) == Ok(Out("Python is fun", g))
  {
    CompoundPattern.PlainPattern("Python is fun", g);
  }

  /** `(A|P)M`: the group picks one branch, then the literal is followed by `M`. */
  lemma Meridiem(g: Rng)
    ensures CompoundPattern.Generate("(A|P)M", g).Ok?
    ensures CompoundPattern.Generate("(A|P)M", g).value.text in {"AM", "PM"}
  {
    assert "(" + ['A', '|', 'P'] + ")" + "M" == "(A|P)M";
    assert SimplePattern.Plain("M");
    assert IsAscii("M");
    Alternation('A', 'P', "M", g);
    assert ['A'] + "M" == "AM" && ['P'] + "M" == "PM";
  }

  /** A character that stands for itself both inside and outside a group. */
  predicate Literal(c: char) {
    c as int < 128 && c !in "[(.{?+*|])"
  }

  /** A two-way alternation group followed by plain text yields one of the
      two characters, followed by the text. */
  lemma Alternation(a: char, b: char, rest: string, g: Rng)
    requires Literal(a) && Literal(b) && IsAscii(rest) && SimplePattern.Plain(rest) && ')' !in rest
    ensures IsAscii("(" + [a, '|', b] + ")" + rest)
    ensures CompoundPattern.Generate("(" + [a, '|', b] + ")" + rest, g).Ok?
    ensures CompoundPattern.Generate("(" + [a, '|', b] + ")" + rest, g).value.text in {[a] + rest, [b] + rest}
  {
    var body := [a, '|', b];
    var lit := Branches(a, b, g);
    var c := lit.text[0];
    assert lit.text == [c];
    NoPrefix(body, rest);
    NoPrefix([c], rest);
    CompoundPattern.GroupCompound("", body, rest, g);
    GroupedChar(c, rest, lit.rng);
  }

  lemma NoPrefix(x: string, y: string)
    ensures "" + "(" + x + ")" + y == "(" + x + ")" + y
  {
  }

  /** `a|b` yields one of its two branches. */
  lemma Branches(a: char, b: char, g: Rng) returns (lit: Out)
    requires Literal(a) && Literal(b)
    ensures IsAscii([a, '|', b])
    ensures SimplePattern.Generate([a, '|', b], g) == Ok(lit)
    ensures lit.text == [a] || lit.text == [b]
  {
    assert Join([[a], [b]], '|') == [a, '|', b];
    SplitJoin([[a], [b]], '|');
    var n := RandInt(g, 0, 1).value;
    assert SimplePattern.Plain([a]) && SimplePattern.Plain([b]);
    SimplePattern.PlainUnits([a], n.rng);
    SimplePattern.PlainUnits([b], n.rng);
    lit := SimplePattern.Generate([a, '|', b], g).value;
  }

  /** A one-character group followed by plain text, as the final pass
      sees it: the group's character, then the text itself. */
  lemma GroupedChar(c: char, rest: string, h: Rng)
    requires Literal(c) && IsAscii(rest) && SimplePattern.Plain(rest)
    ensures IsAscii("(" + [c] + ")" + rest)
    ensures SimplePattern.Generate("(" + [c] + ")" + rest, h) == Ok(Out([c] + rest, h))
  {
    var token := "(" + [c] + ")";
    assert token == ['(', c, ')'];
    assert SimplePattern.WellFormedToken(token);
    assert IsAscii(token);
    assert |rest| == 0 || !SimplePattern.IsQuantStart(rest[0]);
    PlainHasNoBar(rest);
    NoBarConcat(token, rest);
    SimplePattern.UnquantifiedOnce(token, rest, h);
    assert Inner(token) == [c];
    assert CharacterSet.Sample(token, h) == Ok(Out([c], h));
    SimplePattern.PlainUnits(rest, h);
    assert SimplePattern.GenUnits(token + rest, h) == Ok(Out([c] + rest, h));
  }

  lemma PlainHasNoBar(s: string)
    requires SimplePattern.Plain(s)
    ensures '|' !in s
  {
  }

  lemma NoBarConcat(a: string, b: string)
    requires '|' !in a && '|' !in b
    ensures '|' !in a + b
  {
  }
}
