/** Patterns with groups, and the entry point: `_CompoundPattern` and
    `generate` in gojek.py. Every `)` replaces the text back to the nearest
    `(` by one string generated from it, leaving `(` literal `)` behind; the
    flattened text is then generated as a pattern without groups, where the
    `(` literal `)` token stands for its literal. */
module CompoundPattern {
  import opened Base
  import opened Random
  import SimplePattern
  import Quantifier

  /** Position of the last `(` in `stack`: the group a `)` closes.
      IndexError when there is none, as the source's pop loop runs the
      stack dry (gojek.py:230). */
  function LastOpen(stack: string): (r: Result<nat>)
    ensures r.Ok? ==> r.value < |stack| && stack[r.value] == '(' && '(' !in stack[r.value + 1..]
    ensures r.Err? <==> '(' !in stack
    ensures r.Err? ==> r.error == IndexError
  {
    if |stack| == 0 then Err(IndexError)
    else if stack[|stack| - 1] == '(' then Ok(|stack| - 1)
    else
      var r := LastOpen(stack[..|stack| - 1]);
      assert stack == stack[..|stack| - 1] + [stack[|stack| - 1]];
      if r.Ok? then
        assert stack[r.value + 1..] == stack[..|stack| - 1][r.value + 1..] + [stack[|stack| - 1]];
        r
      else r
  }

  /** One `)` (gojek.py:229-237): the text after the last `(` is generated
      as a pattern without groups, and replaced by the result and a `)`;
      the `(` itself stays. */
  function Close(stack: string, g: Rng): (r: Result<Out>)
    requires IsAscii(stack)
    ensures '(' !in stack ==> r == Err(IndexError)
    ensures r.Ok? ==> IsAscii(r.value.text) && (IsPrintable(stack) ==> IsPrintable(r.value.text))
  {
    var j :- LastOpen(stack);
    SliceBands(stack, 0, j + 1);
    SliceBands(stack, j + 1, |stack|);
    var lit :- SimplePattern.Generate(stack[j + 1..], g);
    GroupBands(stack[..j + 1], lit.text);
    Ok(Out(stack[..j + 1] + lit.text + ")", lit.rng))
  }

  lemma GroupBands(a: string, lit: string)
    ensures IsAscii(a) && IsAscii(lit) ==> IsAscii(a + lit + ")")
    ensures IsPrintable(a) && IsPrintable(lit) ==> IsPrintable(a + lit + ")")
  {
    ConcatBands(a, lit);
    ConcatBands(a + lit, ")");
  }

  /** The loop of gojek.py:223-237 from `stack` on, with `rest` still to
      be read: every character but `)` is pushed, every `)` closes a group. */
  function Flatten(stack: string, rest: string, g: Rng): (r: Result<Out>)
    requires IsAscii(stack) && IsAscii(rest)
    ensures r.Ok? ==> IsAscii(r.value.text)
    ensures r.Ok? && IsPrintable(stack) && IsPrintable(rest) ==> IsPrintable(r.value.text)
    decreases |rest|
  {
    if |rest| == 0 then Ok(Out(stack, g))
    else
      SliceBands(rest, 1, |rest|);
      SliceBands(rest, 0, 1);
      if rest[0] != ')' then
        assert [rest[0]] == rest[..1];
        ConcatBands(stack, [rest[0]]);
        Flatten(stack + [rest[0]], rest[1..], g)
      else
        var closed :- Close(stack, g);
        Flatten(closed.text, rest[1..], closed.rng)
  }

  /** `_CompoundPattern.generate` (gojek.py:216-239). */
  function Compound(p: string, g: Rng): (r: Result<Out>)
    requires IsAscii(p)
    ensures '(' !in p ==> r == SimplePattern.Generate(p, g)
    ensures r.Ok? ==> IsAscii(r.value.text) && (IsPrintable(p) ==> IsPrintable(r.value.text))
  {
    if '(' !in p then SimplePattern.Generate(p, g)
    else
      var flat :- Flatten("", p, g);
      SimplePattern.Generate(flat.text, flat.rng)
  }

  /** The module's entry point `generate` (gojek.py:242-246): IndexError on
      an empty pattern; a leading `/` drops the first and the last character. */
  function Generate(p: string, g: Rng): (r: Result<Out>)
    requires IsAscii(p)
    ensures |p| == 0 ==> r == Err(IndexError)
    ensures r.Ok? ==> IsAscii(r.value.text) && (IsPrintable(p) ==> IsPrintable(r.value.text))
  {
    if |p| == 0 then Err(IndexError)
    else if p[0] == '/' then
      InnerBands(p);
      Compound(Inner(p), g)
    else Compound(p, g)
  }

  /** `s` read backwards. */
  function Reverse(s: string): (r: string)
    ensures |r| == |s|
    ensures forall i :: 0 <= i < |s| ==> r[i] == s[|s| - 1 - i]
  {
    if |s| == 0 then "" else Reverse(s[1..]) + [s[0]]
  }

  lemma ReverseSnoc(s: string, c: char)
    ensures Reverse(s + [c]) == [c] + Reverse(s)
  {
    var a, b := Reverse(s + [c]), [c] + Reverse(s);
    assert |a| == |b|;
    forall i | 0 <= i < |a|
      ensures a[i] == b[i]
    {
      if i > 0 {
        assert b[i] == Reverse(s)[i - 1];
      }
    }
  }

  /** The loop of gojek.py:223-237 as the source writes it: a character
      stack, and for each `)` a pop loop that collects the group's text
      back to front and then reverses it. It computes `Flatten`. */
  method FlattenLoop(p: string, g: Rng) returns (r: Result<Out>)
    requires IsAscii(p)
    ensures r == Flatten("", p, g)
  {
    var stack: string := "";
    var h := g;
    var i := 0;
    while i < |p|
      invariant 0 <= i <= |p|
      invariant IsAscii(stack)
      invariant Flatten(stack, p[i..], h) == Flatten("", p, g)
    {
      if p[i] != ')' {
        PushStep(stack, p, i, h);
        stack := stack + [p[i]];
      } else {
        var whole := stack;
        var sub: string := "";
        while |stack| == 0 || stack[|stack| - 1] != '('
          invariant whole == stack + Reverse(sub)
          invariant '(' !in sub
          decreases |stack|
        {
          if |stack| == 0 {
            assert whole == Reverse(sub);
            NoOpenStep(whole, p, i, h);
            return Err(IndexError);
          }
          var top := stack[|stack| - 1];
          ReverseSnoc(sub, top);
          assert stack == stack[..|stack| - 1] + [top];
          sub := sub + [top];
          stack := stack[..|stack| - 1];
        }
        var piece := Reverse(sub);
        CloseStep(whole, stack, piece, p, i, h);
        var lit := SimplePattern.Generate(piece, h);
        if lit.Err? {
          return Err(lit.error);
        }
        stack := stack + lit.value.text + ")";
        h := lit.value.rng;
      }
      i := i + 1;
    }
    return Ok(Out(stack, h));
  }

  /** The loop's step for a character other than `)`: it is pushed. */
  lemma PushStep(stack: string, p: string, i: nat, h: Rng)
    requires IsAscii(stack) && IsAscii(p) && i < |p| && p[i] != ')'
    ensures IsAscii(p[i..]) && IsAscii(p[i + 1..]) && IsAscii(stack + [p[i]])
    ensures Flatten(stack, p[i..], h) == Flatten(stack + [p[i]], p[i + 1..], h)
  {
    SliceBands(p, i, |p|);
    SliceBands(p, i + 1, |p|);
    SliceBands(p, i, i + 1);
    assert p[i..][1..] == p[i + 1..];
    assert [p[i]] == p[i..i + 1];
    ConcatBands(stack, [p[i]]);
  }

  /** The loop's step for a `)` with no `(` on the stack: IndexError. */
  lemma NoOpenStep(whole: string, p: string, i: nat, h: Rng)
    requires IsAscii(whole) && IsAscii(p) && i < |p| && p[i] == ')' && '(' !in whole
    ensures IsAscii(p[i..])
    ensures Flatten(whole, p[i..], h) == Err(IndexError)
  {
    SliceBands(p, i, |p|);
  }

  /** The loop's step for a `)` once the pop loop has split the stack at
      its last `(`: the piece above it is generated and replaced. */
  lemma CloseStep(whole: string, stack: string, piece: string, p: string, i: nat, h: Rng)
    requires IsAscii(whole) && IsAscii(p) && i < |p| && p[i] == ')'
    requires whole == stack + piece && |stack| > 0 && stack[|stack| - 1] == '(' && '(' !in piece
    ensures IsAscii(p[i..]) && IsAscii(p[i + 1..]) && IsAscii(stack) && IsAscii(piece)
    ensures SimplePattern.Generate(piece, h).Err? ==>
      Flatten(whole, p[i..], h) == Err(SimplePattern.Generate(piece, h).error)
    ensures SimplePattern.Generate(piece, h).Ok? ==>
      && IsAscii(stack + SimplePattern.Generate(piece, h).value.text + ")")
      && Flatten(whole, p[i..], h) ==
           Flatten(stack + SimplePattern.Generate(piece, h).value.text + ")", p[i + 1..], SimplePattern.Generate(piece, h).value.rng)
  {
    SliceBands(p, i, |p|);
    SliceBands(p, i + 1, |p|);
    SliceBands(whole, 0, |stack|);
    SliceBands(whole, |stack|, |whole|);
    assert whole[..|stack|] == stack;
    assert whole[|stack|..] == piece;
    assert p[i..][1..] == p[i + 1..];
    OpenBeforePiece(stack, piece);
  }

  /** When `stack` ends in `(` and `piece` holds none, that `(` is the last
      one of their concatenation. */
  lemma OpenBeforePiece(stack: string, piece: string)
    requires |stack| > 0 && stack[|stack| - 1] == '(' && '(' !in piece
    ensures LastOpen(stack + piece) == Ok(|stack| - 1)
    decreases |piece|
  {
    var s := stack + piece;
    if |piece| > 0 {
      assert s[..|s| - 1] == stack + piece[..|piece| - 1];
      OpenBeforePiece(stack, piece[..|piece| - 1]);
    } else {
      assert s == stack;
    }
  }

  /** Characters other than `)` are pushed as they are read (gojek.py:225-227). */
  lemma {:induction false} FlattenPushes(stack: string, a: string, rest: string, g: Rng)
    requires IsAscii(stack) && IsAscii(a) && IsAscii(rest) && ')' !in a
    ensures IsAscii(a + rest) && IsAscii(stack + a)
    ensures Flatten(stack, a + rest, g) == Flatten(stack + a, rest, g)
    decreases |a|
  {
    ConcatBands(a, rest);
    ConcatBands(stack, a);
    if |a| > 0 {
      var s := a + rest;
      assert s[0] == a[0] && s[1..] == a[1..] + rest;
      assert a[0] != ')' && ')' !in a[1..];
      SliceBands(a, 1, |a|);
      SliceBands(a, 0, 1);
      assert [a[0]] == a[..1];
      ConcatBands(stack, [a[0]]);
      assert Flatten(stack, s, g) == Flatten(stack + [a[0]], a[1..] + rest, g);
      FlattenPushes(stack + [a[0]], a[1..], rest, g);
      assert a == [a[0]] + a[1..];
      assert stack + [a[0]] + a[1..] == stack + a;
    } else {
      assert a + rest == rest && stack + a == stack;
    }
  }

  /** Reading a `)` closes the innermost open group (gojek.py:229-237):
      with no `(` on the stack the scan fails with IndexError; otherwise
      the text above the last `(` is generated as a pattern without
      groups, and the scan goes on from the stack cut after that `(`,
      with the generated text and a `)` on top, and the rng the
      generation left. A failing generation ends the scan with its error. */
  lemma FlattenCloses(stack: string, rest: string, g: Rng)
    requires IsAscii(stack) && IsAscii(rest)
    ensures IsAscii(")" + rest)
    ensures '(' !in stack ==> Flatten(stack, ")" + rest, g) == Err(IndexError)
    ensures LastOpen(stack).Ok? ==>
      var j := LastOpen(stack).value;
      && IsAscii(stack[j + 1..])
      && (SimplePattern.Generate(stack[j + 1..], g).Err? ==>
            Flatten(stack, ")" + rest, g) == Err(SimplePattern.Generate(stack[j + 1..], g).error))
      && (SimplePattern.Generate(stack[j + 1..], g).Ok? ==>
            var lit := SimplePattern.Generate(stack[j + 1..], g).value;
            && IsAscii(stack[..j + 1] + lit.text + ")")
            && Flatten(stack, ")" + rest, g) == Flatten(stack[..j + 1] + lit.text + ")", rest, lit.rng))
  {
    ConcatBands(")", rest);
    var p := ")" + rest;
    assert p[0..] == p && p[1..] == rest;
    if LastOpen(stack).Ok? {
      var j := LastOpen(stack).value;
      assert stack == stack[..j + 1] + stack[j + 1..];
      CloseStep(stack, stack[..j + 1], stack[j + 1..], p, 0, g);
    } else {
      NoOpenStep(stack, p, 0, g);
    }
  }

  /** Closing a group whose body holds no `(`: the body is generated, and
      `(` result `)` takes the place of `(` body. */
  lemma CloseGroup(stack: string, body: string, g: Rng)
    requires IsAscii(stack) && IsAscii(body) && '(' !in body
    ensures IsAscii(stack + "(" + body)
    ensures SimplePattern.Generate(body, g).Err? ==> Close(stack + "(" + body, g) == Err(SimplePattern.Generate(body, g).error)
    ensures SimplePattern.Generate(body, g).Ok? ==>
      Close(stack + "(" + body, g) == Ok(Out(stack + "(" + SimplePattern.Generate(body, g).value.text + ")", SimplePattern.Generate(body, g).value.rng))
  {
    ConcatBands(stack, "(");
    ConcatBands(stack + "(", body);
    var top := stack + "(" + body;
    OpenBeforePiece(stack + "(", body);
    assert top[|stack| + 1..] == body;
    assert top[..|stack| + 1] == stack + "(";
  }

  /** A group without inner groups, read on top of a stack: its body is
      generated once as a pattern without groups, and `(` result `)` is
      pushed in its place (gojek.py:229-237). */
  lemma GroupFlatten(stack: string, body: string, rest: string, g: Rng)
    requires IsAscii(stack) && IsAscii(body) && IsAscii(rest)
    requires '(' !in body && ')' !in body
    ensures IsAscii("(" + body + ")" + rest)
    ensures SimplePattern.Generate(body, g).Err? ==>
      Flatten(stack, "(" + body + ")" + rest, g) == Err(SimplePattern.Generate(body, g).error)
    ensures SimplePattern.Generate(body, g).Ok? ==>
      var lit := SimplePattern.Generate(body, g).value;
      IsAscii(stack + "(" + lit.text + ")") &&
      Flatten(stack, "(" + body + ")" + rest, g) == Flatten(stack + "(" + lit.text + ")", rest, lit.rng)
  {
    ConcatBands("(", body);
    ConcatBands(")", rest);
    ConcatBands("(" + body, ")" + rest);
    assert "(" + body + ")" + rest == ("(" + body) + (")" + rest);
    FlattenPushes(stack, "(" + body, ")" + rest, g);
    assert stack + ("(" + body) == stack + "(" + body;
    CloseGroup(stack, body, g);
    ConcatBands(stack + "(" + body, ")" + rest);
    assert (")" + rest)[1..] == rest;
    var lit := SimplePattern.Generate(body, g);
    if lit.Ok? {
      GroupBands(stack + "(", lit.value.text);
    }
  }

  lemma GroupText(pre: string, body: string, post: string)
    ensures pre + ("(" + body + ")" + post) == pre + "(" + body + ")" + post
    ensures IsAscii(pre) && IsAscii("(" + body + ")" + post) ==> IsAscii(pre + "(" + body + ")" + post)
  {
    ConcatBands(pre, "(" + body + ")" + post);
  }

  /** Flattening a pattern with one group and no other brackets leaves
      `(` result `)` in the group's place. */
  lemma FlattenOneGroup(pre: string, body: string, post: string, g: Rng)
    requires IsAscii(pre) && IsAscii(body) && IsAscii(post)
    requires ')' !in pre && '(' !in body && ')' !in body && ')' !in post
    ensures IsAscii(pre + "(" + body + ")" + post)
    ensures SimplePattern.Generate(body, g).Err? ==>
      Flatten("", pre + "(" + body + ")" + post, g) == Err(SimplePattern.Generate(body, g).error)
    ensures SimplePattern.Generate(body, g).Ok? ==>
      var lit := SimplePattern.Generate(body, g).value;
      Flatten("", pre + "(" + body + ")" + post, g) == Ok(Out(pre + "(" + lit.text + ")" + post, lit.rng))
  {
    var group := "(" + body + ")" + post;
    GroupFlatten(pre, body, post, g);
    FlattenPushes("", pre, group, g);
    GroupText(pre, body, post);
    assert "" + pre == pre;
    var lit := SimplePattern.Generate(body, g);
    if lit.Ok? {
      var q := pre + "(" + lit.value.text + ")";
      FlattenPushes(q, post, "", lit.value.rng);
      assert post + "" == post;
      assert Flatten(q + post, "", lit.value.rng) == Ok(Out(q + post, lit.value.rng));
    }
  }

  /** A pattern with one group and no other brackets of either kind is
      generated in two stages: the group's body first, then the whole
      pattern with `(` result `)` in place of the group (gojek.py:219-239). */
  lemma GroupCompound(pre: string, body: string, post: string, g: Rng)
    requires IsAscii(pre) && IsAscii(body) && IsAscii(post)
    requires ')' !in pre && '(' !in body && ')' !in body && ')' !in post
    ensures IsAscii(pre + "(" + body + ")" + post)
    ensures SimplePattern.Generate(body, g).Err? ==>
      Compound(pre + "(" + body + ")" + post, g) == Err(SimplePattern.Generate(body, g).error)
    ensures SimplePattern.Generate(body, g).Ok? ==>
      var lit := SimplePattern.Generate(body, g).value;
      IsAscii(pre + "(" + lit.text + ")" + post) &&
      Compound(pre + "(" + body + ")" + post, g) == SimplePattern.Generate(pre + "(" + lit.text + ")" + post, lit.rng)
  {
    FlattenOneGroup(pre, body, post, g);
    var p := pre + "(" + body + ")" + post;
    assert p[|pre|] == '(';
  }

  /** The strings a pattern with one group denotes: choose a literal the
      group's body denotes, put it in the group's place, and take a string
      the resulting pattern without groups denotes. */
  ghost predicate GroupAllows(pre: string, body: string, post: string, t: string) {
    exists lit ::
      IsAscii(lit) && SimplePattern.Allows(body, lit) && SimplePattern.Allows(pre + "(" + lit + ")" + post, t)
  }

  /** The outcomes of a pattern with one group are exactly the strings
      `GroupAllows` describes: each is produced by some random source, and
      no other string is. */
  lemma GroupOutcomes(pre: string, body: string, post: string, t: string)
    requires IsAscii(pre) && IsAscii(body) && IsAscii(post)
    requires ')' !in pre && '(' !in body && ')' !in body && ')' !in post
    ensures IsAscii(pre + "(" + body + ")" + post)
    ensures GroupAllows(pre, body, post, t) <==>
      exists g :: Compound(pre + "(" + body + ")" + post, g).Ok? && Compound(pre + "(" + body + ")" + post, g).value.text == t
  {
    var p := pre + "(" + body + ")" + post;
    GroupTextBands(pre, body, post);
    forall g | Compound(p, g).Ok? && Compound(p, g).value.text == t
      ensures GroupAllows(pre, body, post, t)
    {
      GroupCompound(pre, body, post, g);
      var lit := SimplePattern.Generate(body, g).value;
      SimplePattern.GenerateSound(body, g);
      SimplePattern.GenerateSound(pre + "(" + lit.text + ")" + post, lit.rng);
    }
    if GroupAllows(pre, body, post, t) {
      var lit :| IsAscii(lit) && SimplePattern.Allows(body, lit) && SimplePattern.Allows(pre + "(" + lit + ")" + post, t);
      var q := pre + "(" + lit + ")" + post;
      GroupTextBands(pre, lit, post);
      var first := SimplePattern.GeneratePlan(body, lit);
      var second := SimplePattern.GeneratePlan(q, t);
      var g := Scripted(first + second);
      FollowsSplit(g, first, second);
      assert SimplePattern.Generate(body, g) == Ok(Out(lit, g.Skip(|first|)));
      GroupCompound(pre, body, post, g);
      assert Compound(p, g) == SimplePattern.Generate(q, g.Skip(|first|));
      assert Compound(p, g).value.text == t;
    }
  }

  lemma GroupTextBands(pre: string, lit: string, post: string)
    requires IsAscii(pre) && IsAscii(lit) && IsAscii(post)
    ensures IsAscii(pre + "(" + lit + ")" + post)
  {
    ConcatBands(pre, "(");
    GroupBands(pre + "(", lit);
    ConcatBands(pre + "(" + lit + ")", post);
  }

  /** `s` written `n` times over. */
  function Rep(s: string, n: nat): (r: string)
    ensures |r| == n * |s|
  {
    if n == 0 then "" else s + Rep(s, n - 1)
  }

  /** Sampling a `(` token draws nothing and gives its literal, so `n`
      samples are the literal written `n` times. */
  lemma {:induction false} GroupTokenRepeats(token: string, n: nat, g: Rng)
    requires IsAscii(token) && |token| > 0 && token[0] == '('
    ensures SimplePattern.Repeat(token, n, g) == Ok(Out(Rep(Inner(token), n), g))
  {
    if n > 0 {
      GroupTokenRepeats(token, n - 1, g);
      SimplePattern.RepeatCons(token, n, g, Out(Inner(token), g), Out(Rep(Inner(token), n - 1), g));
    }
  }

  /** `{n}` in decimal: printable, and free of every bracket but its own
      braces and of `|`. */
  lemma BracedDecimal(n: nat)
    ensures var post := BracedCount(n);
      IsAscii(post) && '(' !in post && ')' !in post && '|' !in post && ']' !in post
    ensures '}' !in Quantifier.Decimal(n)
  {
    var d := Quantifier.Decimal(n);
    var post := "{" + d + "}";
    forall i | 0 <= i < |post|
      ensures post[i] == '{' || post[i] == '}' || Quantifier.IsDigit(post[i])
    {
      if 0 < i < |post| - 1 {
        assert post[i] == d[i - 1];
      }
    }
  }

  /** The quantifier text `{n}`. */
  function BracedCount(n: nat): string {
    "{" + Quantifier.Decimal(n) + "}"
  }

  /** Generating `(lit){n}` as a pattern without groups writes `lit` out
      `n` times and draws nothing. */
  lemma LiteralRepeats(lit: string, n: nat, h: Rng)
    requires IsAscii(lit) && '|' !in lit && ']' !in lit && ')' !in lit
    ensures IsAscii("(" + lit + ")" + BracedCount(n))
    ensures SimplePattern.Generate("(" + lit + ")" + BracedCount(n), h) == Ok(Out(Rep(lit, n), h))
  {
    var d := Quantifier.Decimal(n);
    BracedDecimal(n);
    var post := BracedCount(n);
    var token := "(" + lit + ")";
    GroupBands("(", lit);
    var q := token + post;
    ConcatBands(token, post);
    assert '|' !in q;
    var u := SimplePattern.Unit(token, SimplePattern.Braced(d));
    assert SimplePattern.UnitText(u) + "" == q;
    assert SimplePattern.WellFormedToken(token) by {
      assert forall i :: 1 <= i < |token| - 1 ==> token[i] == lit[i - 1];
    }
    SimplePattern.ReadUnitOf(u, "");
    Quantifier.CountExact(n, h);
    assert SimplePattern.Times(u.quant, h) == Ok(Drawn(n, h));
    assert Inner(token) == lit;
    GroupTokenRepeats(token, n, h);
    SimplePattern.GenUnitsFront(q, h, Drawn(n, h), Out(Rep(lit, n), h));
    assert q[|q|..] == "";
    assert Rep(lit, n) + "" == Rep(lit, n);
  }

  /** A quantified group repeats one literal instead of sampling its body
      again for each repetition: the body is generated once, and `n`
      copies of that one result follow (gojek.py:235-239 with 201-205). */
  lemma QuantifiedGroupRepeatsLiteral(body: string, n: nat, g: Rng)
    requires IsAscii(body) && '(' !in body && ')' !in body
    requires SimplePattern.Generate(body, g).Ok?
    requires var lit := SimplePattern.Generate(body, g).value.text;
      '|' !in lit && ']' !in lit && ')' !in lit
    ensures IsAscii("(" + body + ")" + BracedCount(n))
    ensures var lit := SimplePattern.Generate(body, g).value;
      Compound("(" + body + ")" + BracedCount(n), g) == Ok(Out(Rep(lit.text, n), lit.rng))
  {
    BracedDecimal(n);
    GroupCompound("", body, BracedCount(n), g);
    assert "" + "(" == "(";
    var lit := SimplePattern.Generate(body, g).value;
    LiteralRepeats(lit.text, n, lit.rng);
  }

  /** A `)` with no `(` before it raises IndexError, once the pattern holds
      a `(` somewhere (gojek.py:219, 230). */
  lemma UnmatchedCloser(a: string, b: string, g: Rng)
    requires IsAscii(a) && IsAscii(b) && '(' !in a && ')' !in a && '(' in b
    ensures IsAscii(a + ")" + b)
    ensures Compound(a + ")" + b, g) == Err(IndexError)
  {
    ConcatBands(a, ")");
    ConcatBands(a + ")", b);
    ConcatBands(")", b);
    var p := a + ")" + b;
    assert p == a + (")" + b);
    assert '(' in p by {
      var i :| 0 <= i < |b| && b[i] == '(';
      assert p[|a| + 1 + i] == '(';
    }
    FlattenPushes("", a, ")" + b, g);
    assert "" + a == a;
    assert (")" + b)[1..] == b;
  }

  /** The entry point strips a delimiting `/` pair without looking at the
      last character, and passes other patterns through (gojek.py:244-246). */
  lemma StripsDelimiters(q: string, c: char, p: string, g: Rng)
    requires IsAscii(q) && c as int < 128 && IsAscii(p)
    requires |p| > 0 && p[0] != '/'
    ensures IsAscii("/" + q + [c])
    ensures Generate("/" + q + [c], g) == Compound(q, g)
    ensures Generate(p, g) == Compound(p, g)
  {
    ConcatBands("/", q);
    ConcatBands("/" + q, [c]);
    assert Inner("/" + q + [c]) == q;
  }

  /** A non-empty pattern of plain text, not starting with `/`, generates
      itself and draws nothing. */
  lemma PlainPattern(p: string, g: Rng)
    requires IsAscii(p) && SimplePattern.Plain(p) && |p| > 0 && p[0] != '/'
    ensures Generate(p, g) == Ok(Out(p, g))
  {
    assert '(' !in p && '|' !in p by {
      forall i | 0 <= i < |p|
        ensures p[i] != '(' && p[i] != '|'
      {
        assert p[i] !in "[(.{?+*|";
      }
    }
    SimplePattern.PlainUnits(p, g);
  }
}
