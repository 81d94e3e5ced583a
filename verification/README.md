# gojek regex-driven string generator, modelled in Dafny

`gojek.py` takes a regular-expression-like pattern and produces a random
string the pattern is meant to match. This project models that generator
layer by layer and proves what each layer does for every random choice.
It follows the code where its documentation says otherwise, for example
in the negation universe and the leading `^`.

- `Base`: the exceptions a malformed pattern raises (`IndexError`,
  `KeyError`, `ValueError`) as a `Result` value. It also defines ASCII
  bands and Python's `s[1:-1]` and `str.split` for a one-character
  separator.
- `Random`: `random.randint` becomes an explicit argument. An `Rng` is an
  unending stream of raw draws plus a cursor. `randint(lo, hi)` folds the
  next raw draw into `[lo, hi]` and raises `ValueError` when the range is
  empty. Python's `list(set)` order is modelled as ascending order.
  Because every operation is a pure function of its input and an `Rng`,
  "for every random choice" means "for every `Rng`". A *plan* is a finite
  list of draws. Lemmas that return a plan show that a given outcome is
  reachable.
- `CharacterSet`: `_CharacterSet`. A class token is `.`, a `(literal)`, a
  single character, or `[...]`. A bracket body is scanned greedily into
  single characters and alphanumeric-led ranges. It is then optionally
  complemented against codes 32 to 125, and one member is drawn.
- `Quantifier`: `_Quantifier`. The brace stripping, the fixed ranges of
  `?`, `*` and `+`, Python's `int()` on ASCII text, and `m,n` ranges.
- `SimplePattern`: `_SimplePattern.generate`. The `|` branch choice, the
  left-to-right tokenizer into `<class-token><quantifier>` units, and the
  per-unit repetition. A separate denotation (`Allows`) says which
  strings a pattern without groups stands for. The generator's outcomes
  are proved to be exactly those strings.
- `CompoundPattern`: `_CompoundPattern.generate` and the entry point
  `generate`. It includes the character-stack loop exactly as the source
  writes it (`FlattenLoop`), proved equal to a functional definition
  (`Flatten`).
- `Instances`: some patterns from the generator's documentation and unit
  tests, or fragments of them, with what every random source makes of
  them.

## Model

| member | source | states |
|---|---|---|
| Random.RandInt | gojek.py:144-146 | `randint(lo, hi)` succeeds exactly when `lo <= hi`. Its value then lies in `[lo, hi]` and exactly one draw is consumed. Otherwise it raises `ValueError`. |
| Random.RandIntReaches | gojek.py:144-146 | Every value of a non-empty range is returned by some random source. |
| Random.Pick | gojek.py:112-114 | Indexing the listed set at a drawn index yields a member of the set. It fails with `ValueError` exactly when the set is empty. |
| Random.PickReaches | gojek.py:112-114 | Every member of a non-empty set is picked by some random source. |
| CharacterSet.ScanClass | gojek.py:90-106 | The items the scan reads spell the bracket body back and follow its greedy discipline. The only failure is `IndexError`, for a range missing its end. |
| CharacterSet.ScanClassUnique | gojek.py:90-106 | Scanning the text of any greedy item sequence gives that sequence back, so the scan is the only greedy reading of a body. |
| CharacterSet.ScanClassFailsIff | gojek.py:97-100 | The scan fails exactly when the body has no greedy reading. |
| CharacterSet.Interval | gojek.py:102-103 | `range(ord(start), ord(end) + 1)` holds exactly the codes from start to end. It is empty when the end sorts before the start. |
| CharacterSet.Members | gojek.py:90-106 | A code is in the accumulated `choices` exactly when some scanned item lists it. |
| CharacterSet.MembersWithin | gojek.py:97-105 | Every member lies between the smallest and the largest code occurring in the body. |
| CharacterSet.Negate | gojek.py:62-67 | `_negate_choices` succeeds exactly when every listed code lies in 32..125. Its result is then exactly the codes 32..125 that are not listed. Otherwise it raises `KeyError`. |
| CharacterSet.Resolve | gojek.py:83-109 | The set of a bracket body. It succeeds only for a non-empty body that scans. With a leading `^` the set is the negation of the scanned members, `^` included. Without one it is the scanned members. `ValueError` is never raised here. |
| CharacterSet.NegatedClass | gojek.py:87-109 | A negated class yields only codes in 32..125. It never yields a listed character, and never `^`. |
| CharacterSet.NegatedClassFails | gojek.py:62-67 | A negated class fails exactly when a listed character lies outside 32..125, and the error is then `KeyError`. |
| CharacterSet.Draw | gojek.py:108-114 | Drawing from a bracket body succeeds exactly when its set resolves and is non-empty. It gives one character from that set. An empty set raises `ValueError`. |
| CharacterSet.Sample | gojek.py:69-114 | `.` gives one code in 32..126. An empty token raises `IndexError`. A `(` token gives its interior without drawing. Any other non-bracket token is returned unchanged. A bracket token draws from its body. Printable input gives printable output. |
| CharacterSet.SampleOutcomes | gojek.py:69-114 | A string is a possible sample of a token exactly when `Allows` describes it: it is produced by some random source, and no other string is. |
| CharacterSet.SamplePlan | gojek.py:69-114 | Every allowed sample is produced under a plan of at most one draw. |
| Quantifier.ParseInt | gojek.py:142-145 | Python's `int()` on ASCII text raises only `ValueError`. |
| Quantifier.ParseDecimal | gojek.py:142-145 | `int()` reads back the decimal spelling of every natural number. |
| Quantifier.ParseIgnoresSpace | gojek.py:145 | `int()` ignores whitespace (codes 9 to 13 and the space) before and after a number. |
| Quantifier.SeparatorRejected | gojek.py:145 | The separators 28 to 31 are not skipped by `int()`: a number behind one of them raises `ValueError`. |
| Quantifier.Parse | gojek.py:124-146 | Empty quantifier text raises `IndexError`, and only empty text does. |
| Quantifier.Count | gojek.py:124-146 | `?` gives 0 or 1, `*` gives 0..20 and `+` gives 1..20. Every count lies in the range the text allows. It succeeds exactly when the text parses and the range is not reversed. An exact count draws nothing. |
| Quantifier.CountReaches | gojek.py:129-146 | Every count a quantifier allows is returned by some random source. |
| Quantifier.CountPlan | gojek.py:129-146 | Every allowed count is returned under a plan of at most one draw. |
| Quantifier.CountExact | gojek.py:124-127 | `{m}` and a bare `m` give exactly `m` and draw nothing. |
| Quantifier.CountBetween | gojek.py:144-146 | `m,n` succeeds exactly when `m <= n` and then gives a value in `[m, n]`. It raises `ValueError` otherwise. |
| Quantifier.CountStrayBrace | gojek.py:124-127 | Braces are stripped only when the text starts with `{`, so `m}` raises `ValueError`. |
| SimplePattern.Find | gojek.py:175-177 | The scanning loops stop at the first wanted character. They raise `IndexError` exactly when none is left. |
| SimplePattern.ReadToken | gojek.py:169-180 | The token read is a prefix of the text and has a token shape: one character other than `[` and `(`, or `[`/`(` through a first `]` or `)`, which need not match the opener. The only failure is `IndexError`. |
| SimplePattern.ReadQuant | gojek.py:183-202 | The quantifier read is a prefix of the text: a mark `?`, `+`, `*`, or braces whose body holds no `}`. It is absent only when no quantifier start follows. The only failure is `IndexError`. |
| SimplePattern.Tokenize | gojek.py:168-202 | The units read from a branch spell the branch back and obey the tokenizer's discipline. The only failure is `IndexError`. |
| SimplePattern.TokenizeUnique | gojek.py:168-202 | Tokenizing the text of any disciplined unit sequence gives that sequence back. |
| SimplePattern.Times | gojek.py:186-201 | A unit without a quantifier repeats once and draws nothing. Otherwise the count is one its quantifier allows. `{}` raises `IndexError`. |
| SimplePattern.Repeat | gojek.py:204-205 | A count of zero or less produces nothing and draws nothing. |
| SimplePattern.RepeatSound | gojek.py:204-205 | The output of a repetition is `times` allowed samples of the token, in order. |
| SimplePattern.RepeatPlan | gojek.py:204-205 | Any allowed samples, concatenated, are produced under some plan. |
| SimplePattern.GenUnitsSound | gojek.py:166-207 | Whatever a branch produces splits, in order, into one allowed contribution per unit of the branch. |
| SimplePattern.GenUnitsPlan | gojek.py:166-207 | Every string the units of a branch explain is produced under some plan. |
| SimplePattern.Generate | gojek.py:155-207 | A pattern without `|` is generated as one branch. Printable input gives printable output. |
| SimplePattern.GenerateSound | gojek.py:155-207 | Every output of a pattern without groups is a string the pattern denotes. |
| SimplePattern.GeneratePlan | gojek.py:155-207 | Every string a pattern without groups denotes is produced under some plan. |
| SimplePattern.GenerateOutcomes | gojek.py:155-207 | The outcomes of a pattern without groups are exactly the strings it denotes. |
| SimplePattern.BranchChoice | gojek.py:159-162 | With `|` present, the first draw selects one `split('|')` branch, and the output is that branch generated from the next draw on. |
| SimplePattern.UnquantifiedOnce | gojek.py:186-205 | A token not followed by a quantifier is sampled exactly once, before the rest of the branch. |
| SimplePattern.ZeroCountSkipsUnit | gojek.py:201-205 | A unit quantified `{0}` contributes nothing and draws nothing, even when its class could not be sampled. |
| SimplePattern.PlainUnits | gojek.py:166-207 | Text free of special characters generates itself and draws nothing. |
| CompoundPattern.LastOpen | gojek.py:229-232 | The pop loop stops at the last `(` on the stack. It raises `IndexError` exactly when there is none. |
| CompoundPattern.Close | gojek.py:229-237 | A `)` with no `(` on the stack raises `IndexError`. Printable input stays printable. |
| CompoundPattern.Flatten | gojek.py:222-237 | The stack scan keeps the text ASCII, and printable when its input is. |
| CompoundPattern.FlattenLoop | gojek.py:222-237 | The source's loop is equal to `Flatten` on every input and random source. It pushes characters, pops back to the nearest `(`, reverses the popped run, generates it, and pushes the result and `)`. |
| CompoundPattern.FlattenPushes | gojek.py:224-227 | Characters other than `)` are pushed as they are read. |
| CompoundPattern.FlattenCloses | gojek.py:229-237 | A `)` with no `(` on the stack raises `IndexError`. Otherwise the text above the last `(` is generated as a pattern without groups, and a generation error ends the scan. On success the stack is cut just after that `(`, the generated text and a `)` are pushed, and the scan goes on with the random source the generation left. |
| CompoundPattern.CloseGroup | gojek.py:229-237 | Closing a group whose body holds no `(` generates exactly that body. `(` result `)` then takes the place of `(` body on the stack. |
| CompoundPattern.GroupFlatten | gojek.py:229-237 | A group without inner groups is generated once. `(` result `)` takes the group's place on the stack. |
| CompoundPattern.GroupCompound | gojek.py:216-239 | A pattern with one group is generated in two stages. First the group's body. Then the whole pattern, with `(` result `)` in the group's place. |
| CompoundPattern.GroupOutcomes | gojek.py:216-239 | The outcomes of a pattern with one group are exactly what `GroupAllows` describes. Some allowed literal of the body is put in the group's place, and the result is read as a pattern without groups. |
| CompoundPattern.Compound | gojek.py:216-220 | A pattern without `(` is handed to the pattern-without-groups generator unchanged. |
| CompoundPattern.GroupTokenRepeats | gojek.py:75-76 | Sampling a `(literal)` token `n` times writes the literal `n` times and draws nothing. |
| CompoundPattern.LiteralRepeats | gojek.py:201-205 | `(lit){n}` read as a pattern without groups writes `lit` out `n` times. |
| CompoundPattern.QuantifiedGroupRepeatsLiteral | gojek.py:235-239 | A quantified group repeats one generated literal and does not sample its body again for each repetition. |
| CompoundPattern.UnmatchedCloser | gojek.py:219-232 | Once a `(` occurs anywhere, a `)` with no `(` before it raises `IndexError`. |
| CompoundPattern.Generate | gojek.py:242-246 | An empty pattern raises `IndexError`. Output stays ASCII, and printable when the pattern is. |
| CompoundPattern.StripsDelimiters | gojek.py:244-246 | A leading `/` drops the first and last characters, whatever the last one is. Other patterns pass through unchanged. |
| CompoundPattern.PlainPattern | gojek.py:242-246 | A non-empty plain-text pattern not starting with `/` generates itself and draws nothing. |
| Instances.DigitsAndLetters | gojek.py:90-114 | `[0-9ca-b]` always yields a digit or one of `a`, `b`, `c`. |
| Instances.SignClass | gojek.py:97-105 | In `[-+]` the `-` is a member itself, so the class yields `-` or `+`. |
| Instances.EmailClass | gojek.py:97-105 | In `[A-Z0-9._%+-]` the trailing `-` follows `+` and is a member, so some source yields `-`. |
| Instances.NegatedLetters | gojek.py:62-114 | `[^a-yA-Y]` always succeeds. It yields one character, with a code in 32..125, that is no listed letter and not `^`. |
| Instances.TildeNegation | gojek.py:62-67 | `[^~]` raises `KeyError`, because `~` lies outside the universe 32..125. |
| Instances.ReversedRange | gojek.py:102-114 | `[z-a]` resolves to the empty set, so drawing from it raises `ValueError`. |
| Instances.SpacedRange | gojek.py:141-146 | `{5, 15}` gives a count in 5..15, with the space ignored by `int()`. |
| Instances.PlainSentence | gojek.py:216-220 | `Python is fun` generates itself. |
| Instances.Alternation | gojek.py:159-162 | A group holding a two-way alternation, followed by plain text, yields one of the two characters followed by the text. |
| Instances.Meridiem | gojek.py:216-239 | `(A|P)M` yields `AM` or `PM`. |

## Left out

- The `__main__` demonstration block (gojek.py:249-262) only prints samples.
- gojek_test.py is not modelled. Its end-to-end check relies on Python's
  `re` engine, and a regular-expression matcher is not part of this
  model. Some of its patterns, or fragments of them, appear as the
  `Instances` lemmas.
- Distribution: `randint` is modelled by which values are possible, not
  how often. A raw draw is folded into range by its remainder.
- `list(set)` order: Python's order is modelled as ascending. Only
  membership of the drawn value is claimed.
- Unicode: patterns are restricted to 7-bit ASCII (`IsAscii`
  preconditions). Within that alphabet `str.isalnum` is `[0-9A-Za-z]` and
  the whitespace `int()` skips is codes 9 to 13 and 32.
- Quantifier.ParseInt: covers ASCII signs, whitespace and digit runs with
  single underscores only. Python's other Unicode digits and spaces are
  outside the alphabet.
- CompoundPattern.GroupOutcomes: stated only for a pattern with exactly
  one `)`, closing a group whose body holds no `(`, and only for ASCII
  literals. Nested groups are not covered. A literal holding `|`, `]` or
  `)` is misparsed by the final pass; that case is included only through
  the denotation of the flattened pattern, with no separate property
  stated.
- CompoundPattern.QuantifiedGroupRepeatsLiteral: requires that the
  generated literal hold no `|`, `]` or `)`, for the same reason.
- Instances.Alternation: the two characters and the text after the group
  must be plain. Other contents of an alternation group are covered only
  by CompoundPattern.GroupOutcomes.
