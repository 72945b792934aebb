/** The text form of terms and equations: normalisation, tokenizer, parser and the two printers. */
module Syntax {
  import opened Results
  import opened Terms

  datatype ParseError =
    | UnexpectedChar(c: char)
    | UnexpectedEnd
    | ExpectedAtom
    | ExpectedClose
    | TrailingTokens
    | NoEquals

  type Parsed<+T> = Result<T, ParseError>

  const DIAMOND: char := '\U{25C7}'

  /** The characters a variable name may be made of. */
  predicate PlainChar(c: char)
  {
    || 'A' <= c <= 'Z'
    || 'a' <= c <= 'z'
    || '0' <= c <= '9'
    || c == '_'
    || c == '\''
  }

  predicate PlainName(s: string)
  {
    s != [] && forall c :: c in s ==> PlainChar(c)
  }

  /** Python's white space: what `strip`, `isspace` and `\s` agree on. */
  predicate IsSpace(c: char)
  {
    || '\U{0009}' <= c <= '\U{000D}'
    || '\U{001C}' <= c <= '\U{0020}'
    || c in ['\U{0085}', '\U{00A0}', '\U{1680}', '\U{2028}', '\U{2029}', '\U{202F}', '\U{205F}', '\U{3000}']
    || '\U{2000}' <= c <= '\U{200A}'
  }

  // ---------------------------------------------------------------- printers

  /** The key of a term: fully parenthesised, no spaces. */
  function Canonical(t: Term): string
  {
    match t
    case Var(name) => name
    case Op(l, r) => "(" + Canonical(l) + [DIAMOND] + Canonical(r) + ")"
  }

  /** The display form: as `Canonical`, with a space on each side of the operator. */
  function Display(t: Term): string
  {
    match t
    case Var(name) => name
    case Op(l, r) => "(" + Display(l) + " " + [DIAMOND] + " " + Display(r) + ")"
  }

  /** Every variable of `t` can be written down. */
  predicate Printable(t: Term)
  {
    match t
    case Var(name) => PlainName(name)
    case Op(l, r) => Printable(l) && Printable(r)
  }

  // ----------------------------------------------------------- normalisation

  function DropSpaces(s: string): (r: string)
    ensures |r| <= |s|
  {
    if s != [] && IsSpace(s[0]) then DropSpaces(s[1..]) else s
  }

  function DropTrailingSpaces(s: string): (r: string)
    ensures |r| <= |s|
  {
    if s != [] && IsSpace(s[|s| - 1]) then DropTrailingSpaces(s[..|s| - 1]) else s
  }

  function Strip(s: string): string
  {
    DropTrailingSpaces(DropSpaces(s))
  }

  function ReplaceChar(s: string, from: char, to: char): string
  {
    seq(|s|, i requires 0 <= i < |s| => if s[i] == from then to else s[i])
  }

  /** `replace("==", "=")`: leftmost first, without overlaps. */
  function ReplaceDoubleEq(s: string): string
  {
    if |s| < 2 then s
    else if s[0] == '=' && s[1] == '=' then "=" + ReplaceDoubleEq(s[2..])
    else [s[0]] + ReplaceDoubleEq(s[1..])
  }

  /** Every run of white space becomes one blank. */
  function CollapseSpaces(s: string): string
    decreases |s|
  {
    if s == [] then []
    else if IsSpace(s[0]) then " " + CollapseSpaces(DropSpaces(s[1..]))
    else [s[0]] + CollapseSpaces(s[1..])
  }

  /** The spellings of the operator. */
  ghost predicate OperatorSign(c: char)
  {
    c == '\U{22C4}' || c == '*' || c == '\U{00B7}' || c == '\U{25C7}'
  }

  /** The spellings of the equals sign that are one character. */
  ghost predicate EqualsSign(c: char)
  {
    c == '=' || c == '\U{2243}' || c == '\U{2248}' || c == '\U{2261}'
  }

  /** The text with one spelling of the operator. */
  function OneOperator(s: string): (r: string)
    ensures |r| == |s| && forall i :: 0 <= i < |s| ==> r[i] == if OperatorSign(s[i]) then '\U{25C7}' else s[i]
  {
    ReplaceChar(ReplaceChar(ReplaceChar(s, '\U{22C4}', DIAMOND), '*', DIAMOND), '\U{00B7}', DIAMOND)
  }

  /** The text with one spelling of a single equals sign. */
  function OneEquals(s: string): (r: string)
    ensures |r| == |s| && forall i :: 0 <= i < |s| ==> r[i] == if EqualsSign(s[i]) then '=' else s[i]
  {
    ReplaceChar(ReplaceChar(ReplaceChar(s, '\U{2243}', '='), '\U{2248}', '='), '\U{2261}', '=')
  }

  function Normalize(s: string): string
  {
    CollapseSpaces(OneEquals(ReplaceDoubleEq(OneOperator(Strip(s)))))
  }

  /** The characters the printers use. */
  predicate Written(c: char)
  {
    PlainChar(c) || c in ['(', ')', ' ', '=', DIAMOND]
  }

  /** A text that normalisation leaves alone. */
  ghost predicate Settled(s: string)
  {
    && s != [] && s[0] != ' ' && s[|s| - 1] != ' '
    && (forall i :: 0 <= i < |s| ==> Written(s[i]))
    && (forall i :: 0 <= i < |s| - 1 && s[i] == ' ' ==> s[i + 1] != ' ')
    && (forall i :: 0 <= i < |s| - 1 && s[i] == '=' ==> s[i + 1] != '=')
  }

  lemma {:induction false} ReplaceDoubleEqFixes(s: string)
    requires forall i :: 0 <= i < |s| - 1 && s[i] == '=' ==> s[i + 1] != '='
    ensures ReplaceDoubleEq(s) == s
  {
    if |s| < 2 {
    } else {
      forall i | 0 <= i < |s[1..]| - 1 && s[1..][i] == '='
        ensures s[1..][i + 1] != '='
      {
        assert s[i + 1] == '=';
      }
      ReplaceDoubleEqFixes(s[1..]);
    }
  }

  lemma {:induction false} CollapseSpacesFixes(s: string)
    requires forall i :: 0 <= i < |s| ==> Written(s[i])
    requires forall i :: 0 <= i < |s| - 1 && s[i] == ' ' ==> s[i + 1] != ' '
    ensures CollapseSpaces(s) == s
  {
    if s == [] {
    } else {
      var c, rest := s[0], s[1..];
      assert s == [c] + rest && Written(c);
      assert forall i :: 0 <= i < |rest| ==> rest[i] == s[i + 1];
      CollapseSpacesFixes(rest);
      if c == ' ' {
        assert rest == [] || Written(rest[0]);
        assert DropSpaces(rest) == rest;
      }
    }
  }

  lemma ReplaceNothing(s: string, from: char, to: char)
    requires forall i :: 0 <= i < |s| ==> s[i] != from
    ensures ReplaceChar(s, from, to) == s
  {
  }

  lemma SettledHas(s: string, c: char)
    requires Settled(s) && !Written(c)
    ensures forall i :: 0 <= i < |s| ==> s[i] != c
  {
    assert forall i :: 0 <= i < |s| ==> Written(s[i]);
  }

  lemma ReplaceInSettled(s: string, from: char, to: char)
    requires Settled(s) && !Written(from)
    ensures ReplaceChar(s, from, to) == s
  {
    SettledHas(s, from);
    ReplaceNothing(s, from, to);
  }

  lemma StripFixes(s: string)
    requires Settled(s)
    ensures Strip(s) == s
  {
    assert Written(s[0]) && Written(s[|s| - 1]);
    assert DropSpaces(s) == s && DropTrailingSpaces(s) == s;
  }

  lemma NormalizeFixes(s: string)
    requires Settled(s)
    ensures Normalize(s) == s && Strip(s) == s
  {
    StripFixes(s);
    ReplaceInSettled(s, '\U{22C4}', DIAMOND);
    ReplaceInSettled(s, '*', DIAMOND);
    ReplaceInSettled(s, '\U{00B7}', DIAMOND);
    ReplaceDoubleEqFixes(s);
    ReplaceInSettled(s, '\U{2243}', '=');
    ReplaceInSettled(s, '\U{2248}', '=');
    ReplaceInSettled(s, '\U{2261}', '=');
    CollapseSpacesFixes(s);
  }

  // ------------------------------------------------- what normalisation amounts to

  ghost predicate SameSign(c: char, d: char)
  {
    c == d || (OperatorSign(c) && OperatorSign(d)) || (EqualsSign(c) && EqualsSign(d))
  }

  /** The texts differ in the spelling of signs only. */
  ghost predicate SpelledAlike(a: string, b: string)
  {
    |a| == |b| && forall i :: 0 <= i < |a| ==> SameSign(a[i], b[i])
  }

  /** Equals signs are spelled alike, or never stand side by side. */
  ghost predicate SignsApart(a: string, b: string)
    requires |a| == |b|
  {
    || (forall i :: 0 <= i < |a| && EqualsSign(a[i]) ==> a[i] == b[i])
    || forall i :: 0 <= i < |a| - 1 ==> !(EqualsSign(a[i]) && EqualsSign(a[i + 1]))
  }

  lemma {:induction false} DropAlike(a: string, b: string)
    requires SpelledAlike(a, b) && SignsApart(a, b)
    ensures SpelledAlike(DropSpaces(a), DropSpaces(b)) && SignsApart(DropSpaces(a), DropSpaces(b))
  {
    if a != [] && IsSpace(a[0]) {
      assert SameSign(a[0], b[0]);
      DropAlike(a[1..], b[1..]);
    } else if a != [] {
      assert SameSign(a[0], b[0]);
    }
  }

  lemma {:induction false} DropTrailingAlike(a: string, b: string)
    requires SpelledAlike(a, b) && SignsApart(a, b)
    ensures SpelledAlike(DropTrailingSpaces(a), DropTrailingSpaces(b))
    ensures SignsApart(DropTrailingSpaces(a), DropTrailingSpaces(b))
  {
    if a != [] {
      assert SameSign(a[|a| - 1], b[|b| - 1]);
      if IsSpace(a[|a| - 1]) {
        DropTrailingAlike(a[..|a| - 1], b[..|b| - 1]);
      }
    }
  }

  ghost predicate NoPairs(s: string)
  {
    forall i :: 0 <= i < |s| - 1 && s[i] == '=' ==> s[i + 1] != '='
  }

  lemma OneOperatorAlike(a: string, b: string)
    requires SpelledAlike(a, b) && SignsApart(a, b)
    ensures var x, y := OneOperator(a), OneOperator(b);
            x == y || (NoPairs(x) && NoPairs(y) && OneEquals(x) == OneEquals(y))
  {
    var x, y := OneOperator(a), OneOperator(b);
    if forall i :: 0 <= i < |a| && EqualsSign(a[i]) ==> a[i] == b[i] {
      forall i | 0 <= i < |a| ensures x[i] == y[i] {
        assert SameSign(a[i], b[i]);
      }
      assert x == y;
    } else {
      forall i | 0 <= i < |a| ensures OneEquals(x)[i] == OneEquals(y)[i] {
        assert SameSign(a[i], b[i]);
      }
      forall i | 0 <= i < |a| - 1 ensures (x[i] == '=' ==> x[i + 1] != '=') && (y[i] == '=' ==> y[i + 1] != '=') {
        assert SameSign(a[i], b[i]) && SameSign(a[i + 1], b[i + 1]);
      }
    }
  }

  /** Different spellings of the operator, and of an equals sign on its own, are the same text. */
  lemma SpellingsAgree(a: string, b: string)
    requires SpelledAlike(a, b) && SignsApart(a, b)
    ensures Normalize(a) == Normalize(b)
  {
    DropAlike(a, b);
    DropTrailingAlike(DropSpaces(a), DropSpaces(b));
    OneOperatorAlike(Strip(a), Strip(b));
    var x, y := OneOperator(Strip(a)), OneOperator(Strip(b));
    if x != y {
      ReplaceDoubleEqFixes(x);
      ReplaceDoubleEqFixes(y);
    }
  }

  lemma {:induction false} DropSpacesStart(s: string)
    ensures var r := DropSpaces(s); r != [] ==> !IsSpace(r[0]) && r[|r| - 1] == s[|s| - 1]
  {
    if s != [] && IsSpace(s[0]) {
      DropSpacesStart(s[1..]);
    }
  }

  lemma {:induction false} DropTrailingEnds(s: string)
    ensures var r := DropTrailingSpaces(s); r != [] ==> !IsSpace(r[|r| - 1]) && r[0] == s[0]
  {
    if s != [] && IsSpace(s[|s| - 1]) {
      DropTrailingEnds(s[..|s| - 1]);
    }
  }

  lemma {:induction false} ReplaceDoubleEqChars(s: string)
    ensures var r := ReplaceDoubleEq(s);
            && (forall i :: 0 <= i < |r| ==> r[i] in s)
            && (s != [] ==> r != [] && r[0] == s[0] && r[|r| - 1] == s[|s| - 1])
  {
    if |s| < 2 {
    } else if s[0] == '=' && s[1] == '=' {
      ReplaceDoubleEqChars(s[2..]);
      assert forall i :: 0 <= i < |ReplaceDoubleEq(s[2..])| ==> ReplaceDoubleEq(s[2..])[i] in s;
    } else {
      ReplaceDoubleEqChars(s[1..]);
      assert forall i :: 0 <= i < |ReplaceDoubleEq(s[1..])| ==> ReplaceDoubleEq(s[1..])[i] in s;
    }
  }

  /** Single blanks, and no other white space. */
  ghost predicate SingleBlanks(r: string)
  {
    && (forall i :: 0 <= i < |r| && IsSpace(r[i]) ==> r[i] == ' ')
    && (forall i :: 0 <= i < |r| - 1 && r[i] == ' ' ==> r[i + 1] != ' ')
  }

  lemma BlankBefore(r: string)
    requires SingleBlanks(r) && (r == [] || !IsSpace(r[0]))
    ensures SingleBlanks(" " + r)
  {
    var t := " " + r;
    assert forall i :: 1 <= i < |t| ==> t[i] == r[i - 1];
  }

  lemma CharBefore(c: char, r: string)
    requires SingleBlanks(r) && !IsSpace(c)
    ensures SingleBlanks([c] + r)
  {
    var t := [c] + r;
    assert forall i :: 1 <= i < |t| ==> t[i] == r[i - 1];
  }

  lemma {:induction false} CollapseSpacesBlanks(s: string)
    ensures SingleBlanks(CollapseSpaces(s))
    ensures CollapseSpaces(s) != [] && !IsSpace(s[0]) ==> CollapseSpaces(s)[0] == s[0]
    decreases |s|
  {
    if s == [] {
    } else if IsSpace(s[0]) {
      DropSpacesStart(s[1..]);
      CollapseSpacesBlanks(DropSpaces(s[1..]));
      BlankBefore(CollapseSpaces(DropSpaces(s[1..])));
    } else {
      CollapseSpacesBlanks(s[1..]);
      CharBefore(s[0], CollapseSpaces(s[1..]));
    }
  }

  lemma {:induction false} DropSpacesMembers(s: string)
    ensures forall c :: c in DropSpaces(s) ==> c in s
  {
    if s != [] && IsSpace(s[0]) {
      DropSpacesMembers(s[1..]);
    }
  }

  lemma {:induction false} CollapseSpacesMembers(s: string, c: char)
    requires c in CollapseSpaces(s)
    ensures c == ' ' || c in s
    decreases |s|
  {
    if s == [] {
    } else if IsSpace(s[0]) {
      DropSpacesMembers(s[1..]);
      if c in CollapseSpaces(DropSpaces(s[1..])) {
        CollapseSpacesMembers(DropSpaces(s[1..]), c);
      }
    } else if c in CollapseSpaces(s[1..]) {
      CollapseSpacesMembers(s[1..], c);
    }
  }

  lemma {:induction false} DropSpacesKeeps(s: string)
    requires s != [] && !IsSpace(s[|s| - 1])
    ensures DropSpaces(s) != []
  {
    if IsSpace(s[0]) {
      DropSpacesKeeps(s[1..]);
    }
  }

  lemma {:induction false} CollapseSpacesEnd(s: string)
    requires s != [] && !IsSpace(s[|s| - 1])
    ensures var r := CollapseSpaces(s); r != [] && r[|r| - 1] == s[|s| - 1]
    decreases |s|
  {
    if IsSpace(s[0]) {
      DropSpacesStart(s[1..]);
      DropSpacesKeeps(s[1..]);
      CollapseSpacesEnd(DropSpaces(s[1..]));
    } else if |s| > 1 {
      CollapseSpacesEnd(s[1..]);
    } else {
      assert CollapseSpaces(s[1..]) == [];
    }
  }

  lemma StripEnds(s: string)
    ensures var r := Strip(s); r != [] ==> !IsSpace(r[0]) && !IsSpace(r[|r| - 1])
  {
    DropSpacesStart(s);
    DropTrailingEnds(DropSpaces(s));
  }

  lemma SignsLeft(b: string, c: char)
    requires forall i :: 0 <= i < |b| ==> !OperatorSign(b[i]) || b[i] == '\U{25C7}'
    requires c in OneEquals(ReplaceDoubleEq(b))
    ensures !OperatorSign(c) || c == '\U{25C7}'
    ensures !EqualsSign(c) || c == '='
  {
    var e := ReplaceDoubleEq(b);
    var i :| 0 <= i < |e| && OneEquals(e)[i] == c;
    ReplaceDoubleEqChars(b);
    assert e[i] in b;
  }

  /** A normalised text has one spelling of the operator and of a single equals sign, single blanks
      inside, and no white space around. */
  lemma NormalizedText(s: string)
    ensures var r := Normalize(s);
            && SingleBlanks(r) && (r != [] ==> r[0] != ' ' && r[|r| - 1] != ' ')
            && forall i :: 0 <= i < |r| ==> r[i] !in ['\U{22C4}', '*', '\U{00B7}', '\U{2243}', '\U{2248}', '\U{2261}']
  {
    var b := OneOperator(Strip(s));
    var d := OneEquals(ReplaceDoubleEq(b));
    StripEnds(s);
    ReplaceDoubleEqChars(b);
    CollapseSpacesBlanks(d);
    if d != [] { CollapseSpacesEnd(d); }
    forall c | c in CollapseSpaces(d) ensures c !in ['\U{22C4}', '*', '\U{00B7}', '\U{2243}', '\U{2248}', '\U{2261}'] {
      CollapseSpacesMembers(d, c);
      if c in d { SignsLeft(b, c); }
    }
  }

  lemma SettledJoin(a: string, b: string)
    requires Settled(a) && Settled(b)
    requires a[|a| - 1] != '=' || b[0] != '='
    ensures Settled(a + b)
  {
    forall i | 0 <= i < |a + b|
      ensures Written((a + b)[i])
    {
      assert (a + b)[i] == if i < |a| then a[i] else b[i - |a|];
    }
  }

  lemma SettledSpaced(a: string, b: string)
    requires Settled(a) && Settled(b)
    ensures Settled(a + " " + b)
  {
    var s := a + " " + b;
    forall i | 0 <= i < |s|
      ensures Written(s[i])
    {
      assert s[i] == if i < |a| then a[i] else if i == |a| then ' ' else b[i - |a| - 1];
    }
  }

  /** A settled text that can stand next to an equals sign. */
  ghost predicate Side(s: string)
  {
    Settled(s) && s[0] != '=' && s[|s| - 1] != '='
  }

  lemma SideJoin(a: string, b: string)
    requires Side(a) && Side(b)
    ensures Side(a + b) && Side(a + " " + b)
  {
    SettledJoin(a, b);
    SettledSpaced(a, b);
  }

  lemma NameSide(name: string)
    requires PlainName(name)
    ensures Side(name)
  {
    assert forall i :: 0 <= i < |name| ==> name[i] in name;
    assert forall i :: 0 <= i < |name| ==> Written(name[i]) && name[i] != ' ' && name[i] != '=';
  }

  lemma BracketSide(l: string, r: string)
    requires Side(l) && Side(r)
    ensures Side("(" + l + [DIAMOND] + r + ")")
    ensures Side("(" + l + " " + [DIAMOND] + " " + r + ")")
  {
    var d: string := [DIAMOND];
    assert Side("(") && Side(d) && Side(")");
    SideJoin("(", l);
    SideJoin("(" + l, d);
    SideJoin("(" + l + d, r);
    SideJoin("(" + l + d + r, ")");
    SideJoin("(" + l + " " + d, r);
    SideJoin("(" + l + " " + d + " " + r, ")");
  }

  lemma {:induction false} PrintedSettled(t: Term)
    requires Printable(t)
    ensures Side(Canonical(t)) && Side(Display(t))
  {
    match t
    case Var(name) =>
      NameSide(name);
    case Op(l, r) =>
      PrintedSettled(l);
      PrintedSettled(r);
      BracketSide(Canonical(l), Canonical(r));
      BracketSide(Display(l), Display(r));
  }

  // ---------------------------------------------------------------- tokenizer

  /** The longest run of name characters at the front. */
  function WordLength(s: string): (n: nat)
    ensures n <= |s|
    ensures forall i :: 0 <= i < n ==> PlainChar(s[i])
    ensures n < |s| ==> !PlainChar(s[n])
  {
    if s == [] || !PlainChar(s[0]) then 0 else
      var n := WordLength(s[1..]);
      assert forall i :: 1 <= i < n + 1 ==> s[i] == s[1..][i - 1];
      n + 1
  }

  function Prefix(tok: string, rest: Parsed<seq<string>>): Parsed<seq<string>>
  {
    match rest
    case Ok(ts) => Ok([tok] + ts)
    case Err(e) => Err(e)
  }

  /** The tokens of a normalised text. */
  function Tokens(s: string): Parsed<seq<string>>
    decreases |s|
  {
    if s == [] then Ok([])
    else if IsSpace(s[0]) || s[0] == ',' || s[0] == ';' then Tokens(s[1..])
    else if s[0] in ['(', ')', '=', DIAMOND] then Prefix([s[0]], Tokens(s[1..]))
    else if PlainChar(s[0]) then Prefix(s[..WordLength(s)], Tokens(s[WordLength(s)..]))
    else Err(UnexpectedChar(s[0]))
  }

  function Concat(a: seq<string>, rest: Parsed<seq<string>>): Parsed<seq<string>>
  {
    match rest
    case Ok(ts) => Ok(a + ts)
    case Err(e) => Err(e)
  }

  lemma ConcatPrefix(a: seq<string>, tok: string, rest: Parsed<seq<string>>)
    ensures Concat(a, Prefix(tok, rest)) == Concat(a + [tok], rest)
  {
    if rest.Ok? {
      assert a + ([tok] + rest.value) == (a + [tok]) + rest.value;
    }
  }

  lemma WordAtFront(name: string, rest: string)
    requires PlainName(name) && (rest == [] || !PlainChar(rest[0]))
    ensures WordLength(name + rest) == |name|
  {
    var s := name + rest;
    var w := WordLength(s);
    assert forall i :: 0 <= i < |name| ==> s[i] == name[i] && name[i] in name;
    if rest != [] { assert s[|name|] == rest[0]; }
  }

  lemma WordFirst(name: string, rest: string)
    requires PlainName(name) && (rest == [] || !PlainChar(rest[0]))
    ensures Tokens(name + rest) == Prefix(name, Tokens(rest))
  {
    WordAtFront(name, rest);
    var s := name + rest;
    assert s[0] == name[0] && name[0] in name;
    assert s[..|name|] == name && s[|name|..] == rest;
  }

  lemma WordStep(s: string, i: nat, j: nat)
    requires i < j <= |s|
    requires forall k :: i <= k < j ==> PlainChar(s[k])
    requires j < |s| ==> !PlainChar(s[j])
    ensures Tokens(s[i..]) == Prefix(s[i..j], Tokens(s[j..]))
  {
    assert s[i..] == s[i..j] + s[j..];
    assert PlainName(s[i..j]);
    WordFirst(s[i..j], s[j..]);
  }

  lemma ConcatNothing(r: Parsed<seq<string>>)
    ensures Concat([], r) == r
  {
    if r.Ok? { assert [] + r.value == r.value; }
  }

  /** The inner loop of the tokenizer: the end of the word that starts at `i`. */
  method EndOfWord(s: string, i: nat) returns (j: nat)
    requires i < |s| && PlainChar(s[i])
    ensures i < j <= |s| && (forall k :: i <= k < j ==> PlainChar(s[k])) && (j < |s| ==> !PlainChar(s[j]))
  {
    j := i + 1;
    while j < |s| && PlainChar(s[j])
      invariant i < j <= |s|
      invariant forall k :: i <= k < j ==> PlainChar(s[k])
    {
      j := j + 1;
    }
  }

  /** The tokenizer as the loop over an index that the source runs. */
  method Tokenize(text: string) returns (r: Parsed<seq<string>>)
    ensures r == Tokens(Normalize(text))
  {
    var s := Normalize(text);
    var tokens: seq<string> := [];
    var i := 0;
    assert s[0..] == s;
    ConcatNothing(Tokens(s));
    while i < |s|
      invariant 0 <= i <= |s|
      invariant Tokens(s) == Concat(tokens, Tokens(s[i..]))
    {
      var c := s[i];
      assert s[i..][0] == c && s[i..][1..] == s[i + 1..];
      if IsSpace(c) {
        i := i + 1;
      } else if c in ['(', ')', '=', DIAMOND] {
        ConcatPrefix(tokens, [c], Tokens(s[i + 1..]));
        tokens := tokens + [[c]];
        i := i + 1;
      } else if PlainChar(c) {
        var j := EndOfWord(s, i);
        WordStep(s, i, j);
        ConcatPrefix(tokens, s[i..j], Tokens(s[j..]));
        tokens := tokens + [s[i..j]];
        i := j;
      } else if c == ',' || c == ';' {
        i := i + 1;
      } else {
        return Err(UnexpectedChar(c));
      }
    }
    assert Tokens(s[i..]) == Ok([]);
    assert tokens + [] == tokens;
    r := Ok(tokens);
  }

  /** The token sequence of a printed term. */
  function TokensOf(t: Term): seq<string>
  {
    match t
    case Var(name) => [name]
    case Op(l, r) => ["("] + TokensOf(l) + [[DIAMOND]] + TokensOf(r) + [")"]
  }

  lemma MarkFirst(c: char, rest: string)
    requires c in ['(', ')', '=', DIAMOND]
    ensures Tokens([c] + rest) == Prefix([c], Tokens(rest))
  {
    assert ([c] + rest)[1..] == rest;
  }

  lemma BlankFirst(rest: string)
    ensures Tokens(" " + rest) == Tokens(rest)
  {
    assert (" " + rest)[1..] == rest;
  }

  lemma JoinTokens(t: Term, rest: Parsed<seq<string>>)
    requires t.Op?
    ensures Prefix("(", Concat(TokensOf(t.left), Prefix([DIAMOND], Concat(TokensOf(t.right), Prefix(")", rest)))))
         == Concat(TokensOf(t), rest)
  {
    if rest.Ok? {
      var l, r := TokensOf(t.left), TokensOf(t.right);
      assert ["("] + (l + ([[DIAMOND]] + (r + ([")"] + rest.value)))) == (["("] + l + [[DIAMOND]] + r + [")"]) + rest.value;
    }
  }

  lemma {:induction false} TokensOfCanonical(t: Term, rest: string)
    requires Printable(t) && (rest == [] || !PlainChar(rest[0]))
    ensures Tokens(Canonical(t) + rest) == Concat(TokensOf(t), Tokens(rest))
  {
    match t
    case Var(name) =>
      WordFirst(name, rest);
    case Op(l, r) =>
      var closing := ")" + rest;
      var right := Canonical(r) + closing;
      var middle := [DIAMOND] + right;
      var left := Canonical(l) + middle;
      assert Canonical(t) + rest == "(" + left;
      MarkFirst('(', left);
      TokensOfCanonical(l, middle);
      MarkFirst(DIAMOND, right);
      TokensOfCanonical(r, closing);
      MarkFirst(')', rest);
      JoinTokens(t, Tokens(rest));
  }

  lemma {:induction false} TokensOfDisplay(t: Term, rest: string)
    requires Printable(t) && (rest == [] || !PlainChar(rest[0]))
    ensures Tokens(Display(t) + rest) == Concat(TokensOf(t), Tokens(rest))
  {
    match t
    case Var(name) =>
      WordFirst(name, rest);
    case Op(l, r) =>
      var closing := ")" + rest;
      var right := Display(r) + closing;
      var middle := [DIAMOND] + (" " + right);
      var left := Display(l) + (" " + middle);
      assert Display(t) + rest == "(" + left;
      MarkFirst('(', left);
      TokensOfDisplay(l, " " + middle);
      BlankFirst(middle);
      MarkFirst(DIAMOND, " " + right);
      BlankFirst(right);
      TokensOfDisplay(r, closing);
      MarkFirst(')', rest);
      JoinTokens(t, Tokens(rest));
  }

  // ------------------------------------------------------------------- parser

  /** One atom at the front of the tokens, and the tokens after it. */
  function AtomAt(ts: seq<string>): (r: Parsed<(Term, seq<string>)>)
    ensures r.Ok? ==> |r.value.1| < |ts|
    decreases |ts|, 0
  {
    if ts == [] then Err(ExpectedAtom)
    else if ts[0] == "(" then
      match TermAt(ts[1..]) {
        case Err(e) => Err(e)
        case Ok((t, rest)) => if rest == [] || rest[0] != ")" then Err(ExpectedClose) else Ok((t, rest[1..]))
      }
    else if ts[0] == ")" || ts[0] == [DIAMOND] || ts[0] == "=" then Err(ExpectedAtom)
    else Ok((Var(ts[0]), ts[1..]))
  }

  /** A chain of atoms, associated to the left. */
  function TermAt(ts: seq<string>): (r: Parsed<(Term, seq<string>)>)
    ensures r.Ok? ==> |r.value.1| < |ts|
    decreases |ts|, 1
  {
    match AtomAt(ts)
    case Err(e) => Err(e)
    case Ok((t, rest)) => ChainAt(t, rest)
  }

  function ChainAt(t: Term, ts: seq<string>): (r: Parsed<(Term, seq<string>)>)
    ensures r.Ok? ==> |r.value.1| <= |ts|
    decreases |ts|, 2
  {
    if ts == [] || ts[0] != [DIAMOND] then Ok((t, ts))
    else
      match AtomAt(ts[1..])
      case Err(e) => Err(e)
      case Ok((a, rest)) => ChainAt(Op(t, a), rest)
  }

  function ParseTokens(ts: seq<string>): Parsed<Term>
  {
    match TermAt(ts)
    case Err(e) => Err(e)
    case Ok((t, rest)) => if rest == [] then Ok(t) else Err(TrailingTokens)
  }

  function ReadTerm(s: string): Parsed<Term>
  {
    match Tokens(s)
    case Err(e) => Err(e)
    case Ok(ts) => ParseTokens(ts)
  }

  /** The value of `parse_term` on a text. */
  function ParseOf(text: string): Parsed<Term>
  {
    ReadTerm(Normalize(text))
  }

  /** The parser object: a token list and an index that only moves forward. */
  class TermParser {
    const tokens: seq<string>
    var i: nat

    constructor (tokens: seq<string>)
      ensures this.tokens == tokens && i == 0
    {
      this.tokens := tokens;
      i := 0;
    }

    ghost function Rest(): seq<string>
      reads this
      requires i <= |tokens|
    {
      tokens[i..]
    }

    function Peek(): Option<string>
      reads this
    {
      if i >= |tokens| then None else Some(tokens[i])
    }

    method Pop() returns (r: Parsed<string>)
      requires i <= |tokens|
      modifies this
      ensures i <= |tokens|
      ensures old(Rest()) == [] ==> r == Err(UnexpectedEnd) && i == old(i)
      ensures old(Rest()) != [] ==> r == Ok(old(Rest())[0]) && Rest() == old(Rest())[1..]
    {
      if i >= |tokens| { return Err(UnexpectedEnd); }
      var t := tokens[i];
      i := i + 1;
      r := Ok(t);
    }

    method Parse() returns (r: Parsed<Term>)
      requires i <= |tokens|
      modifies this
      ensures i <= |tokens|
      ensures match TermAt(old(Rest()))
              case Err(e) => r == Err(e)
              case Ok((t, rest)) => r == Ok(t) && Rest() == rest
      decreases |tokens| - i, 1
    {
      r := ParseAtom();
      if r.Err? { return; }
      var t := r.value;
      while Peek() == Some([DIAMOND])
        invariant old(i) < i <= |tokens|
        invariant TermAt(old(Rest())) == ChainAt(t, Rest())
        decreases |tokens| - i
      {
        var _ := Pop();
        r := ParseAtom();
        if r.Err? { return; }
        t := Op(t, r.value);
      }
      r := Ok(t);
    }

    method ParseAtom() returns (r: Parsed<Term>)
      requires i <= |tokens|
      modifies this
      ensures i <= |tokens|
      ensures match AtomAt(old(Rest()))
              case Err(e) => r == Err(e)
              case Ok((t, rest)) => r == Ok(t) && Rest() == rest && i > old(i)
      decreases |tokens| - i, 0
    {
      var tok := Peek();
      if tok.None? { return Err(ExpectedAtom); }
      if tok.value == "(" {
        var _ := Pop();
        r := Parse();
        if r.Err? { return; }
        if Peek() != Some(")") { return Err(ExpectedClose); }
        var _ := Pop();
        return;
      }
      if tok.value == ")" || tok.value == [DIAMOND] || tok.value == "=" { return Err(ExpectedAtom); }
      var _ := Pop();
      r := Ok(Var(tok.value));
    }
  }

  method ParseTerm(text: string) returns (r: Parsed<Term>)
    ensures r == ParseOf(text)
  {
    var toks := Tokenize(text);
    if toks.Err? { return Err(toks.error); }
    var p := new TermParser(toks.value);
    assert p.Rest() == toks.value;
    r := p.Parse();
    if r.Ok? && p.Peek() != None {
      r := Err(TrailingTokens);
    }
  }

  lemma {:induction false} PlainNameIsAtom(name: string)
    requires PlainName(name)
    ensures name != "(" && name != ")" && name != [DIAMOND] && name != "="
  {
    assert name[0] in name;
    assert !PlainChar('(') && !PlainChar(')') && !PlainChar(DIAMOND) && !PlainChar('=');
  }

  lemma BracketParses(l: Term, r: Term, left: seq<string>, middle: seq<string>, right: seq<string>, rest: seq<string>)
    requires AtomAt(left) == Ok((l, middle)) && middle == [[DIAMOND]] + right
    requires AtomAt(right) == Ok((r, [")"] + rest))
    ensures AtomAt(["("] + left) == Ok((Op(l, r), rest))
  {
    var closing := [")"] + rest;
    assert middle[1..] == right && closing[1..] == rest && (["("] + left)[1..] == left;
    assert ")"[0] != DIAMOND;
    assert ChainAt(Op(l, r), closing) == Ok((Op(l, r), closing));
    assert ChainAt(l, middle) == ChainAt(Op(l, r), closing);
    assert TermAt(left) == Ok((Op(l, r), closing));
  }

  lemma {:induction false} AtomOfTokens(t: Term, rest: seq<string>)
    requires Printable(t)
    ensures AtomAt(TokensOf(t) + rest) == Ok((t, rest))
  {
    var ts := TokensOf(t) + rest;
    match t
    case Var(name) =>
      PlainNameIsAtom(name);
      assert ts[0] == name && ts[1..] == rest;
    case Op(l, r) =>
      var closing := [")"] + rest;
      var right := TokensOf(r) + closing;
      var middle := [[DIAMOND]] + right;
      var left := TokensOf(l) + middle;
      assert ts == ["("] + left && ts[1..] == left;
      AtomOfTokens(l, middle);
      AtomOfTokens(r, closing);
      BracketParses(l, r, left, middle, right, rest);
  }

  lemma PrintedTokens(t: Term)
    requires Printable(t)
    ensures Tokens(Canonical(t)) == Ok(TokensOf(t)) && Tokens(Display(t)) == Ok(TokensOf(t))
  {
    TokensOfCanonical(t, []);
    TokensOfDisplay(t, []);
    assert Canonical(t) + [] == Canonical(t) && Display(t) + [] == Display(t);
    assert TokensOf(t) + [] == TokensOf(t);
  }

  lemma ReadTokens(s: string, t: Term)
    requires Printable(t) && Tokens(s) == Ok(TokensOf(t))
    ensures ReadTerm(s) == Ok(t)
  {
    AtomOfTokens(t, []);
    assert TokensOf(t) + [] == TokensOf(t);
    assert TermAt(TokensOf(t)) == ChainAt(t, []);
  }

  /** Printing and parsing undo each other, in both printed forms. */
  lemma ParsePrinted(t: Term)
    requires Printable(t)
    ensures ParseOf(Canonical(t)) == Ok(t)
    ensures ParseOf(Display(t)) == Ok(t)
  {
    PrintedSettled(t);
    NormalizeFixes(Canonical(t));
    NormalizeFixes(Display(t));
    PrintedTokens(t);
    ReadTokens(Canonical(t), t);
    ReadTokens(Display(t), t);
  }

  /** String keys identify terms. */
  lemma CanonicalInjective(s: Term, t: Term)
    requires Printable(s) && Printable(t)
    requires Canonical(s) == Canonical(t)
    ensures s == t
  {
    ParsePrinted(s);
    ParsePrinted(t);
  }

  // ------------------------------------- whatever parses can be printed again

  ghost predicate GoodToken(tok: string)
  {
    tok in ["(", ")", "=", [DIAMOND]] || PlainName(tok)
  }

  lemma {:induction false} TokensAreGood(s: string)
    ensures Tokens(s).Ok? ==> forall tok :: tok in Tokens(s).value ==> GoodToken(tok)
    decreases |s|
  {
    if s == [] {
    } else if IsSpace(s[0]) || s[0] == ',' || s[0] == ';' || s[0] in ['(', ')', '=', DIAMOND] {
      TokensAreGood(s[1..]);
    } else if PlainChar(s[0]) {
      var w := WordLength(s);
      TokensAreGood(s[w..]);
      assert PlainName(s[..w]);
    }
  }

  lemma {:induction false} AtomPrintable(ts: seq<string>)
    requires forall tok :: tok in ts ==> GoodToken(tok)
    ensures AtomAt(ts).Ok? ==>
              Printable(AtomAt(ts).value.0) && forall tok :: tok in AtomAt(ts).value.1 ==> GoodToken(tok)
    decreases |ts|, 0
  {
    if ts != [] {
      assert GoodToken(ts[0]);
      if ts[0] == "(" {
        TermPrintable(ts[1..]);
      }
    }
  }

  lemma {:induction false} TermPrintable(ts: seq<string>)
    requires forall tok :: tok in ts ==> GoodToken(tok)
    ensures TermAt(ts).Ok? ==>
              Printable(TermAt(ts).value.0) && forall tok :: tok in TermAt(ts).value.1 ==> GoodToken(tok)
    decreases |ts|, 1
  {
    AtomPrintable(ts);
    if AtomAt(ts).Ok? {
      ChainPrintable(AtomAt(ts).value.0, AtomAt(ts).value.1);
    }
  }

  lemma {:induction false} ChainPrintable(t: Term, ts: seq<string>)
    requires Printable(t) && forall tok :: tok in ts ==> GoodToken(tok)
    ensures ChainAt(t, ts).Ok? ==>
              Printable(ChainAt(t, ts).value.0) && forall tok :: tok in ChainAt(t, ts).value.1 ==> GoodToken(tok)
    decreases |ts|, 2
  {
    if ts != [] && ts[0] == [DIAMOND] {
      AtomPrintable(ts[1..]);
      var a := AtomAt(ts[1..]);
      if a.Ok? {
        ChainPrintable(Op(t, a.value.0), a.value.1);
      }
    }
  }

  /** For every text: what parses is printable, and its canonical form parses to the
      same term, so canonical keys of parsed terms are stable. */
  lemma CanonicalStable(text: string)
    requires ParseOf(text).Ok?
    ensures Printable(ParseOf(text).value)
    ensures ParseOf(Canonical(ParseOf(text).value)) == ParseOf(text)
  {
    var s := Normalize(text);
    TokensAreGood(s);
    TermPrintable(Tokens(s).value);
    ParsePrinted(ParseOf(text).value);
  }

  // ---------------------------------------------------------------- equations

  function IndexOfEq(s: string): (n: nat)
    ensures n <= |s|
    ensures '=' !in s[..n]
    ensures n < |s| ==> s[n] == '='
  {
    if s == [] || s[0] == '=' then 0
    else
      var n := IndexOfEq(s[1..]);
      assert s[..n + 1] == [s[0]] + s[1..][..n];
      n + 1
  }

  function ReadEquation(raw: string): Parsed<(string, Equation)>
  {
    var k := IndexOfEq(raw);
    if k == |raw| then Err(NoEquals)
    else
      match ParseOf(Strip(raw[..k]))
      case Err(e) => Err(e)
      case Ok(lhs) =>
        match ParseOf(Strip(raw[k + 1..]))
        case Err(e) => Err(e)
        case Ok(rhs) => Ok((raw, Equation(lhs, rhs)))
  }

  /** `parse_equation`: normalise, split at the first equals sign, parse both sides. */
  function ParseEquation(text: string): Parsed<(string, Equation)>
  {
    ReadEquation(Normalize(text))
  }

  lemma {:induction false} PrintedHasNoEq(t: Term)
    requires Printable(t)
    ensures '=' !in Canonical(t)
  {
    match t
    case Var(name) =>
    case Op(l, r) => PrintedHasNoEq(l); PrintedHasNoEq(r);
  }

  lemma EquationSettled(l: string, r: string)
    requires Side(l) && Side(r)
    ensures Normalize(l + "=" + r) == l + "=" + r
  {
    SettledJoin(l, "=");
    SettledJoin(l + "=", r);
    NormalizeFixes(l + "=" + r);
  }

  lemma EquationOfSides(raw: string, l: string, r: string, eq: Equation)
    requires Normalize(raw) == raw && IndexOfEq(raw) == |l| < |raw|
    requires raw[..|l|] == l && raw[|l| + 1..] == r && Strip(l) == l && Strip(r) == r
    requires ParseOf(l) == Ok(eq.lhs) && ParseOf(r) == Ok(eq.rhs)
    ensures ParseEquation(raw) == Ok((raw, eq))
  {
  }

  lemma FirstEq(l: string, r: string)
    requires '=' !in l
    ensures var text := l + "=" + r;
            IndexOfEq(text) == |l| && text[..|l|] == l && text[|l| + 1..] == r
  {
    var text := l + "=" + r;
    var k := IndexOfEq(text);
    assert text[|l|] == '=';
    assert forall i :: 0 <= i < |l| ==> text[i] == l[i] && l[i] in l;
    assert forall i :: 0 <= i < k ==> text[i] == text[..k][i] && text[i] != '=';
  }

  /** An equation written from two printed sides reads back as itself, with its own text as `raw`. */
  lemma ParsePrintedEquation(eq: Equation)
    requires Printable(eq.lhs) && Printable(eq.rhs)
    ensures var text := Canonical(eq.lhs) + "=" + Canonical(eq.rhs);
            ParseEquation(text) == Ok((text, eq))
  {
    var l, r := Canonical(eq.lhs), Canonical(eq.rhs);
    PrintedSettled(eq.lhs);
    PrintedSettled(eq.rhs);
    EquationSettled(l, r);
    NormalizeFixes(l);
    NormalizeFixes(r);
    PrintedHasNoEq(eq.lhs);
    FirstEq(l, r);
    ParsePrinted(eq.lhs);
    ParsePrinted(eq.rhs);
    EquationOfSides(l + "=" + r, l, r, eq);
  }

  /** Texts that differ in the spelling of signs only are read alike. */
  lemma SpellingsReadAlike(a: string, b: string)
    requires SpelledAlike(a, b) && SignsApart(a, b)
    ensures ParseOf(a) == ParseOf(b) && ParseEquation(a) == ParseEquation(b)
  {
    SpellingsAgree(a, b);
  }

  lemma {:induction false} DoubleEqAfter(l: string, rest: string)
    requires '=' !in l
    ensures ReplaceDoubleEq(l + rest) == l + ReplaceDoubleEq(rest)
  {
    if l == [] {
      assert l + rest == rest;
    } else {
      var s := l + rest;
      DoubleEqAfter(l[1..], rest);
      assert s[0] == l[0] && l[0] in l && s[1..] == l[1..] + rest;
      if |s| < 2 {
        assert rest == [] && s == l;
      } else {
        assert ReplaceDoubleEq(s) == [s[0]] + ReplaceDoubleEq(s[1..]);
        assert l == [l[0]] + l[1..];
      }
    }
  }

  lemma PrintedEnds(l: string, r: string)
    requires Side(l) && Side(r)
    ensures Strip(l + "==" + r) == l + "==" + r
  {
    var two := l + "==" + r;
    assert Written(two[0]) && Written(two[|two| - 1]);
    assert DropSpaces(two) == two && DropTrailingSpaces(two) == two;
  }

  lemma WrittenIsOne(s: string)
    requires forall i :: 0 <= i < |s| ==> Written(s[i])
    ensures OneOperator(s) == s
  {
  }

  lemma SignsAreOne(l: string, r: string)
    requires Side(l) && Side(r)
    ensures OneOperator(l + "==" + r) == l + "==" + r && OneOperator(l + "=" + r) == l + "=" + r
  {
    WrittenIsOne(l + "==" + r);
    WrittenIsOne(l + "=" + r);
  }

  lemma DoubleEqMiddle(l: string, r: string)
    requires '=' !in l && '=' !in r
    ensures ReplaceDoubleEq(l + "==" + r) == ReplaceDoubleEq(l + "=" + r)
  {
    assert l + "==" + r == l + ("==" + r) && l + "=" + r == l + ("=" + r);
    DoubleEqAfter(l, "==" + r);
    DoubleEqAfter(l, "=" + r);
    DoubleEqAfter(r, []);
    assert ("==" + r)[2..] == r && ("=" + r)[1..] == r && r + [] == r;
  }

  lemma DoublesToSingle(l: string, r: string)
    requires Side(l) && Side(r) && '=' !in l && '=' !in r
    ensures Normalize(l + "==" + r) == Normalize(l + "=" + r)
  {
    var two, one := l + "==" + r, l + "=" + r;
    SettledJoin(l, "=");
    SettledJoin(l + "=", r);
    StripFixes(one);
    PrintedEnds(l, r);
    SignsAreOne(l, r);
    DoubleEqMiddle(l, r);
  }

  /** An equation may also be written with a double equals sign. */
  lemma ParseDoubleEquals(eq: Equation)
    requires Printable(eq.lhs) && Printable(eq.rhs)
    ensures ParseEquation(Canonical(eq.lhs) + "==" + Canonical(eq.rhs)) == ParseEquation(Canonical(eq.lhs) + "=" + Canonical(eq.rhs))
  {
    var l, r := Canonical(eq.lhs), Canonical(eq.rhs);
    PrintedSettled(eq.lhs);
    PrintedSettled(eq.rhs);
    PrintedHasNoEq(eq.lhs);
    PrintedHasNoEq(eq.rhs);
    EquationSettled(l, r);
    DoublesToSingle(l, r);
  }

  // ------------------------------------------------- chains without parentheses

  /** Further operands, each after an operator. */
  function Tail(us: seq<Term>): string
  {
    if us == [] then [] else [DIAMOND] + Canonical(us[0]) + Tail(us[1..])
  }

  function TailTokens(us: seq<Term>): seq<string>
  {
    if us == [] then [] else [[DIAMOND]] + TokensOf(us[0]) + TailTokens(us[1..])
  }

  /** The operands joined from the left: the last operation is at the top. */
  function JoinedLeft(t: Term, us: seq<Term>): Term
  {
    if us == [] then t else Op(JoinedLeft(t, us[..|us| - 1]), us[|us| - 1])
  }

  lemma {:induction false} JoinedFromFirst(t: Term, us: seq<Term>)
    requires us != []
    ensures JoinedLeft(t, us) == JoinedLeft(Op(t, us[0]), us[1..])
  {
    if |us| == 1 {
    } else {
      JoinedFromFirst(t, us[..|us| - 1]);
      assert us[..|us| - 1][1..] == us[1..][..|us| - 2];
    }
  }

  ghost predicate AllPrintable(us: seq<Term>)
  {
    forall k :: 0 <= k < |us| ==> Printable(us[k])
  }

  lemma TailJoins(us: seq<Term>)
    requires us != []
    ensures Tail(us) == [DIAMOND] + (Canonical(us[0]) + Tail(us[1..]))
    ensures [[DIAMOND]] + (TokensOf(us[0]) + TailTokens(us[1..])) == TailTokens(us)
  {
  }

  lemma {:induction false} TokensOfTail(us: seq<Term>)
    requires AllPrintable(us)
    ensures Tokens(Tail(us)) == Ok(TailTokens(us))
  {
    if us == [] {
    } else {
      var rest := Canonical(us[0]) + Tail(us[1..]);
      TokensOfTail(us[1..]);
      TokensOfCanonical(us[0], Tail(us[1..]));
      MarkFirst(DIAMOND, rest);
      TailJoins(us);
    }
  }

  lemma {:induction false} ChainOfTail(t: Term, us: seq<Term>)
    requires AllPrintable(us)
    ensures ChainAt(t, TailTokens(us)) == Ok((JoinedLeft(t, us), []))
    decreases us
  {
    if us == [] {
    } else {
      var ts, rest := TailTokens(us), TailTokens(us[1..]);
      assert ts[1..] == TokensOf(us[0]) + rest;
      AtomOfTokens(us[0], rest);
      ChainOfTail(Op(t, us[0]), us[1..]);
      JoinedFromFirst(t, us);
    }
  }

  lemma SideGrows(l: string, c: string)
    requires Side(l) && Side(c)
    ensures Side(l + [DIAMOND] + c)
  {
    var d: string := [DIAMOND];
    assert Side(d);
    SideJoin(l, d);
    SideJoin(l + d, c);
  }

  lemma TailFirst(l: string, us: seq<Term>)
    requires us != []
    ensures l + Tail(us) == (l + [DIAMOND] + Canonical(us[0])) + Tail(us[1..])
  {
  }

  lemma {:induction false} ChainIsSide(l: string, us: seq<Term>)
    requires Side(l) && AllPrintable(us)
    ensures Side(l + Tail(us))
    decreases |us|
  {
    if us == [] {
      assert l + Tail(us) == l;
    } else {
      PrintedSettled(us[0]);
      SideGrows(l, Canonical(us[0]));
      TailFirst(l, us);
      ChainIsSide(l + [DIAMOND] + Canonical(us[0]), us[1..]);
    }
  }

  /** A chain of operands written without parentheses is read from the left. */
  lemma ChainsReadLeft(t: Term, us: seq<Term>)
    requires Printable(t) && AllPrintable(us)
    ensures ParseOf(Canonical(t) + Tail(us)) == Ok(JoinedLeft(t, us))
  {
    PrintedSettled(t);
    ChainIsSide(Canonical(t), us);
    NormalizeFixes(Canonical(t) + Tail(us));
    TokensOfTail(us);
    TokensOfCanonical(t, Tail(us));
    AtomOfTokens(t, TailTokens(us));
    ChainOfTail(t, us);
  }
}
