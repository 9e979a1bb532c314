/** The derive macro's token loops: which field names it finds in a struct declaration. */
module Derive {
  import opened Bytes
  import opened Text

  datatype Delimiter = Parenthesis | Brace | Bracket

  datatype Token =
    | Word(text: string)
    | Colon
    | Comma
    | Mark(c: char)
    | Literal(text: string)
    | Group(delimiter: Delimiter, stream: seq<Token>)

  datatype Parsed<+T> = Found(value: T) | Failed(message: string)

  const CANNOT_PARSE := "TraceHash derive could not parse a named field"
  const NO_NAME := "TraceHash derive expected a struct name"
  const NOT_A_STRUCT := "TraceHash derive currently supports structs"
  const NO_BODY := "TraceHash derive currently supports structs with named fields"
  const NO_FIELDS := "TraceHash derive found no named fields"

  datatype Candidate = NoCandidate | Candidate(name: string)

  // ----- the field loop

  /** The state of the loop, carried over the remaining tokens. */
  function Run(tokens: seq<Token>, fields: seq<string>, candidate: Candidate, beforeColon: bool): Parsed<seq<string>> {
    if tokens == [] then Found(fields)
    else
      var rest := tokens[1..];
      match tokens[0]
      case Word(text) =>
        Run(rest, fields, if beforeColon && text != "pub" then Candidate(text) else candidate, beforeColon)
      case Colon =>
        if candidate.Candidate? then Run(rest, fields + [candidate.name], NoCandidate, false)
        else Failed(CANNOT_PARSE)
      case Comma => Run(rest, fields, NoCandidate, true)
      case _ => Run(rest, fields, candidate, beforeColon)
  }

  method ParseNamedFields(tokens: seq<Token>) returns (r: Parsed<seq<string>>)
    ensures r == Run(tokens, [], NoCandidate, true)
  {
    var fields: seq<string>, candidate, beforeColon := [], NoCandidate, true;
    for i := 0 to |tokens|
      invariant Run(tokens[i..], fields, candidate, beforeColon) == Run(tokens, [], NoCandidate, true)
    {
      assert tokens[i..][0] == tokens[i] && tokens[i..][1..] == tokens[i + 1..];
      match tokens[i] {
        case Word(text) =>
          if beforeColon && text != "pub" {
            candidate := Candidate(text);
          }
        case Colon =>
          if candidate.NoCandidate? {
            return Failed(CANNOT_PARSE);
          }
          fields, candidate := fields + [candidate.name], NoCandidate;
          beforeColon := false;
        case Comma =>
          candidate := NoCandidate;
          beforeColon := true;
        case _ =>
      }
    }
    r := Found(fields);
  }

  // ----- declarations

  /** A named field: attributes and visibility, the name, and the tokens of its type. */
  datatype Field = Field(prefix: seq<Token>, name: string, ty: seq<Token>)

  /** Attributes are marks and groups; visibility is `pub` with an optional group. */
  predicate IsPrefix(tokens: seq<Token>) {
    forall i :: 0 <= i < |tokens| ==> tokens[i].Group? || tokens[i].Mark? || tokens[i] == Word("pub")
  }

  predicate WellFormed(fields: seq<Field>) {
    forall i :: 0 <= i < |fields| ==> IsPrefix(fields[i].prefix) && fields[i].name != "pub"
  }

  function FieldTokens(f: Field): seq<Token> {
    f.prefix + [Word(f.name), Colon] + f.ty
  }

  /** A field list, with or without a trailing comma. */
  function ListTokens(fields: seq<Field>, trailing: bool): seq<Token> {
    if fields == [] then []
    else if |fields| == 1 then FieldTokens(fields[0]) + (if trailing then [Comma] else [])
    else FieldTokens(fields[0]) + [Comma] + ListTokens(fields[1..], trailing)
  }

  function Names(fields: seq<Field>): (r: seq<string>)
    ensures |r| == |fields|
  {
    seq(|fields|, i requires 0 <= i < |fields| => fields[i].name)
  }

  function Colons(tokens: seq<Token>): nat {
    if tokens == [] then 0 else (if tokens[0].Colon? then 1 else 0) + Colons(tokens[1..])
  }

  predicate NoColons(fields: seq<Field>) {
    forall i :: 0 <= i < |fields| ==> Colons(fields[i].ty) == 0
  }

  // ----- what the loop does to a field

  lemma {:induction false} RunPrefix(prefix: seq<Token>, rest: seq<Token>, fields: seq<string>)
    requires IsPrefix(prefix)
    ensures Run(prefix + rest, fields, NoCandidate, true) == Run(rest, fields, NoCandidate, true)
  {
    if prefix == [] {
      assert prefix + rest == rest;
    } else {
      RunPrefix(prefix[1..], rest, fields);
      assert (prefix + rest)[1..] == prefix[1..] + rest;
    }
  }

  /** A type without colons leaves no trace once the comma after it is read. */
  lemma {:induction false} RunType(ty: seq<Token>, rest: seq<Token>, fields: seq<string>, c: Candidate, b: bool)
    requires Colons(ty) == 0
    ensures Run(ty + [Comma] + rest, fields, c, b) == Run(rest, fields, NoCandidate, true)
    ensures Run(ty, fields, c, b) == Found(fields)
  {
    var all := ty + [Comma] + rest;
    if ty == [] {
      assert all[0] == Comma && all[1..] == rest;
    } else {
      assert all[0] == ty[0] && all[1..] == ty[1..] + [Comma] + rest;
      var c' := match ty[0] case Word(text) => (if b && text != "pub" then Candidate(text) else c)
                            case Comma => NoCandidate
                            case _ => c;
      RunType(ty[1..], rest, fields, c', b || ty[0].Comma?);
    }
  }

  lemma {:induction false} RunFieldName(f: Field, rest: seq<Token>, fields: seq<string>)
    requires IsPrefix(f.prefix) && f.name != "pub"
    ensures Run(FieldTokens(f) + rest, fields, NoCandidate, true)
         == Run(f.ty + rest, fields + [f.name], NoCandidate, false)
  {
    var tail := [Word(f.name), Colon] + (f.ty + rest);
    assert FieldTokens(f) + rest == f.prefix + tail;
    RunPrefix(f.prefix, tail, fields);
    assert tail[1..] == [Colon] + (f.ty + rest) && tail[1..][1..] == f.ty + rest;
  }

  lemma {:induction false} RunList(fields: seq<Field>, trailing: bool, done: seq<string>)
    requires WellFormed(fields) && NoColons(fields)
    ensures Run(ListTokens(fields, trailing), done, NoCandidate, true) == Found(done + Names(fields))
  {
    if fields == [] {
      assert done + Names(fields) == done;
    } else {
      var f, rest := fields[0], ListTokens(fields[1..], trailing);
      var more := done + [f.name];
      if |fields| > 1 {
        assert FieldTokens(f) + [Comma] + rest == FieldTokens(f) + ([Comma] + rest);
        RunFieldName(f, [Comma] + rest, done);
        assert f.ty + ([Comma] + rest) == f.ty + [Comma] + rest;
        RunType(f.ty, rest, more, NoCandidate, false);
        RunList(fields[1..], trailing, more);
        assert more + Names(fields[1..]) == done + Names(fields);
      } else {
        RunFieldName(f, if trailing then [Comma] else [], done);
        RunType(f.ty, [], more, NoCandidate, false);
        assert f.ty + [] == f.ty && f.ty + [Comma] + [] == f.ty + [Comma];
        assert FieldTokens(f) + [] == FieldTokens(f);
        assert more == done + Names(fields);
      }
    }
  }

  // ----- counting colons

  lemma {:induction false} ColonsConcat(a: seq<Token>, b: seq<Token>)
    ensures Colons(a + b) == Colons(a) + Colons(b)
  {
    if a == [] {
      assert a + b == b;
    } else {
      ColonsConcat(a[1..], b);
      assert (a + b)[1..] == a[1..] + b;
    }
  }

  /** Every colon that is read without failing adds one field. */
  lemma {:induction false} RunCounts(tokens: seq<Token>, fields: seq<string>, c: Candidate, b: bool)
    requires Run(tokens, fields, c, b).Found?
    ensures |Run(tokens, fields, c, b).value| == |fields| + Colons(tokens)
  {
    if tokens != [] {
      var rest := tokens[1..];
      match tokens[0] {
        case Word(text) => RunCounts(rest, fields, if b && text != "pub" then Candidate(text) else c, b);
        case Colon => RunCounts(rest, fields + [c.name], NoCandidate, false);
        case Comma => RunCounts(rest, fields, NoCandidate, true);
        case _ => RunCounts(rest, fields, c, b);
      }
    }
  }

  lemma {:induction false} PrefixHasNoColons(prefix: seq<Token>)
    requires IsPrefix(prefix)
    ensures Colons(prefix) == 0
  {
    if prefix != [] {
      PrefixHasNoColons(prefix[1..]);
    }
  }

  lemma {:induction false} FieldColons(f: Field)
    requires IsPrefix(f.prefix)
    ensures Colons(FieldTokens(f)) == 1 + Colons(f.ty)
  {
    PrefixHasNoColons(f.prefix);
    ColonsConcat(f.prefix + [Word(f.name), Colon], f.ty);
    ColonsConcat(f.prefix, [Word(f.name), Colon]);
    assert [Word(f.name), Colon][1..] == [Colon] && [Colon][1..] == [];
  }

  lemma {:induction false} ListColons(fields: seq<Field>, trailing: bool)
    requires WellFormed(fields)
    ensures Colons(ListTokens(fields, trailing)) >= |fields|
    ensures Colons(ListTokens(fields, trailing)) == |fields| <==> NoColons(fields)
  {
    if fields != [] {
      FieldColons(fields[0]);
      assert [Comma][1..] == [] && Colons([Comma]) == 0;
      ListColons(fields[1..], trailing);
      if |fields| > 1 {
        ColonsConcat(FieldTokens(fields[0]) + [Comma], ListTokens(fields[1..], trailing));
        ColonsConcat(FieldTokens(fields[0]), [Comma]);
      } else {
        ColonsConcat(FieldTokens(fields[0]), if trailing then [Comma] else []);
      }
      assert NoColons(fields) <==> Colons(fields[0].ty) == 0 && NoColons(fields[1..]) by {
        if Colons(fields[0].ty) == 0 && NoColons(fields[1..]) {
          forall i | 0 <= i < |fields| ensures Colons(fields[i].ty) == 0 {
            assert i > 0 ==> fields[i] == fields[1..][i - 1];
          }
        }
        if NoColons(fields) {
          forall i | 0 <= i < |fields[1..]| ensures Colons(fields[1..][i].ty) == 0 {
            assert fields[1..][i] == fields[i + 1];
          }
        }
      }
    }
  }

  /** The declared names come back exactly when no type holds a colon outside a group, whatever commas the types
      hold. */
  lemma {:induction false} NamesIffNoColons(fields: seq<Field>, trailing: bool)
    requires WellFormed(fields)
    ensures Run(ListTokens(fields, trailing), [], NoCandidate, true) == Found(Names(fields)) <==> NoColons(fields)
  {
    var tokens := ListTokens(fields, trailing);
    ListColons(fields, trailing);
    if NoColons(fields) {
      RunList(fields, trailing, []);
      assert [] + Names(fields) == Names(fields);
    }
    if Run(tokens, [], NoCandidate, true) == Found(Names(fields)) {
      RunCounts(tokens, [], NoCandidate, true);
    }
  }

  // ----- path separators

  predicate Adjacent(tokens: seq<Token>) {
    |tokens| >= 2 && ((tokens[0].Colon? && tokens[1].Colon?) || Adjacent(tokens[1..]))
  }

  /** Colons occur only next to another colon, as in a path. */
  predicate Paired(ty: seq<Token>) {
    forall i :: 0 <= i < |ty| && ty[i].Colon? ==>
      (i > 0 && ty[i - 1].Colon?) || (i + 1 < |ty| && ty[i + 1].Colon?)
  }

  lemma {:induction false} AdjacentAt(tokens: seq<Token>, i: nat)
    requires i + 1 < |tokens| && tokens[i].Colon? && tokens[i + 1].Colon?
    ensures Adjacent(tokens)
  {
    if i > 0 {
      AdjacentAt(tokens[1..], i - 1);
    }
  }

  lemma {:induction false} AdjacentWithin(a: seq<Token>, b: seq<Token>, c: seq<Token>)
    requires Adjacent(b)
    ensures Adjacent(a + b + c)
    decreases |b|
  {
    if b[0].Colon? && b[1].Colon? {
      AdjacentAt(a + b + c, |a|);
    } else {
      AdjacentWithin(a + [b[0]], b[1..], c);
      assert a + [b[0]] + b[1..] + c == a + b + c;
    }
  }

  lemma {:induction false} SomeColon(ty: seq<Token>) returns (i: nat)
    requires Colons(ty) > 0
    ensures i < |ty| && ty[i].Colon?
  {
    if ty[0].Colon? {
      i := 0;
    } else {
      var j := SomeColon(ty[1..]);
      i := j + 1;
    }
  }

  lemma {:induction false} PairedIsAdjacent(ty: seq<Token>)
    requires Paired(ty) && Colons(ty) > 0
    ensures Adjacent(ty)
  {
    var i := SomeColon(ty);
    assert ty[i].Colon?;
    if i > 0 && ty[i - 1].Colon? {
      AdjacentAt(ty, i - 1);
    } else {
      assert i + 1 < |ty| && ty[i + 1].Colon?;
      AdjacentAt(ty, i);
    }
  }

  /** Two colons in a row always stop the loop. */
  lemma {:induction false} AdjacentFails(tokens: seq<Token>, fields: seq<string>, c: Candidate, b: bool)
    requires Adjacent(tokens)
    ensures Run(tokens, fields, c, b) == Failed(CANNOT_PARSE)
    decreases |tokens|
  {
    var rest := tokens[1..];
    match tokens[0] {
      case Word(text) => AdjacentFails(rest, fields, if b && text != "pub" then Candidate(text) else c, b);
      case Colon =>
        if c.Candidate? {
          if tokens[1].Colon? {
            assert rest[0].Colon?;
            assert Run(rest, fields + [c.name], NoCandidate, false) == Failed(CANNOT_PARSE);
          } else {
            AdjacentFails(rest, fields + [c.name], NoCandidate, false);
          }
        }
      case Comma => AdjacentFails(rest, fields, NoCandidate, true);
      case _ => AdjacentFails(rest, fields, c, b);
    }
  }

  lemma {:induction false} ListHoldsType(fields: seq<Field>, trailing: bool, i: nat)
    requires i < |fields| && Adjacent(fields[i].ty)
    ensures Adjacent(ListTokens(fields, trailing))
  {
    var head := FieldTokens(fields[0]);
    if i == 0 {
      var f := fields[0];
      var tail := if |fields| > 1 then [Comma] + ListTokens(fields[1..], trailing)
                  else if trailing then [Comma] else [];
      AdjacentWithin(f.prefix + [Word(f.name), Colon], f.ty, tail);
      assert ListTokens(fields, trailing) == f.prefix + [Word(f.name), Colon] + f.ty + tail;
    } else {
      var rest := ListTokens(fields[1..], trailing);
      ListHoldsType(fields[1..], trailing, i - 1);
      AdjacentWithin(head + [Comma], rest, []);
      assert head + [Comma] + rest + [] == ListTokens(fields, trailing);
    }
  }

  /** With colons only in path separators the loop is sound: the declared names, or an error as soon as one type
      spells a path. */
  lemma {:induction false} PathsAreRejected(fields: seq<Field>, trailing: bool)
    requires WellFormed(fields) && forall i :: 0 <= i < |fields| ==> Paired(fields[i].ty)
    ensures Run(ListTokens(fields, trailing), [], NoCandidate, true)
         == if NoColons(fields) then Found(Names(fields)) else Failed(CANNOT_PARSE)
  {
    NamesIffNoColons(fields, trailing);
    if !NoColons(fields) {
      var i :| 0 <= i < |fields| && Colons(fields[i].ty) != 0;
      PairedIsAdjacent(fields[i].ty);
      ListHoldsType(fields, trailing, i);
      AdjacentFails(ListTokens(fields, trailing), [], NoCandidate, true);
    }
  }

  /** A lone colon behind a comma of a type is taken for a field: `a: Box<dyn T<u8, Item: Copy>>` has two. */
  lemma {:induction false} LoneColonAddsField(a: string, item: string)
    requires a != "pub" && item != "pub"
    ensures var f := Field([], a, [Word("T"), Mark('<'), Word("u8"), Comma, Word(item), Colon, Word("Copy"), Mark('>')]);
            Run(ListTokens([f], false), [], NoCandidate, true) == Found([a, item])
  {
    var f := Field([], a, [Word("T"), Mark('<'), Word("u8"), Comma, Word(item), Colon, Word("Copy"), Mark('>')]);
    var front, back := [Word("T"), Mark('<'), Word("u8")], [Colon, Word("Copy"), Mark('>')];
    RunFieldName(f, [], []);
    assert FieldTokens(f) + [] == ListTokens([f], false);
    assert f.ty + [] == front + [Comma] + ([Word(item)] + back);
    RunType(front, [Word(item)] + back, [a], NoCandidate, false);
    assert ([Word(item)] + back)[1..] == back;
    assert [] + [a] == [a] && [a] + [item] == [a, item];
    var end := [Word("Copy"), Mark('>')];
    assert back[1..] == end && end[1..] == [Mark('>')] && [Mark('>')][1..] == [];
    assert Colons([Mark('>')]) == 0;
    assert Run(back, [a], Candidate(item), true) == Run(end, [a, item], NoCandidate, false);
    RunType(end, [], [a, item], NoCandidate, false);
  }

  // ----- which lists the loop accepts

  predicate IsName(t: Token) {
    t.Word? && t.text != "pub"
  }

  /** The last comma before `i` is at `k`, and no colon comes between. */
  predicate OpenSince(ty: seq<Token>, k: nat, i: nat)
    requires i <= |ty|
  {
    k < i && ty[k].Comma? && forall m :: k < m < i ==> !ty[m].Comma? && !ty[m].Colon?
  }

  ghost predicate Open(ty: seq<Token>, i: nat)
    requires i <= |ty|
  {
    exists k :: OpenSince(ty, k, i)
  }

  /** Since the last comma before `i` there has been a word other than `pub`, and no colon. */
  ghost predicate Named(ty: seq<Token>, i: nat)
    requires i <= |ty|
  {
    exists k: nat, w: nat :: OpenSince(ty, k, i) && k < w < i && IsName(ty[w])
  }

  ghost predicate ColonsNamed(ty: seq<Token>, from: nat) {
    forall i :: from <= i < |ty| && ty[i].Colon? ==> Named(ty, i)
  }

  ghost predicate AllColonsNamed(fields: seq<Field>) {
    forall i :: 0 <= i < |fields| ==> ColonsNamed(fields[i].ty, 0)
  }

  /** The loop without the names. */
  predicate Accepts(tokens: seq<Token>, named: bool, beforeColon: bool) {
    if tokens == [] then true
    else
      var rest := tokens[1..];
      match tokens[0]
      case Word(text) => Accepts(rest, named || (beforeColon && text != "pub"), beforeColon)
      case Colon => named && Accepts(rest, false, false)
      case Comma => Accepts(rest, false, true)
      case _ => Accepts(rest, named, beforeColon)
  }

  lemma {:induction false} FoundIffAccepts(tokens: seq<Token>, fields: seq<string>, c: Candidate, b: bool)
    ensures Run(tokens, fields, c, b).Found? <==> Accepts(tokens, c.Candidate?, b)
  {
    if tokens != [] {
      var rest := tokens[1..];
      match tokens[0] {
        case Word(text) => FoundIffAccepts(rest, fields, if b && text != "pub" then Candidate(text) else c, b);
        case Colon =>
          if c.Candidate? {
            FoundIffAccepts(rest, fields + [c.name], NoCandidate, false);
          }
        case Comma => FoundIffAccepts(rest, fields, NoCandidate, true);
        case _ => FoundIffAccepts(rest, fields, c, b);
      }
    }
  }

  lemma {:induction false} OpenStep(ty: seq<Token>, i: nat)
    requires i < |ty|
    ensures Open(ty, i + 1) <==> ty[i].Comma? || (!ty[i].Colon? && Open(ty, i))
  {
    if ty[i].Comma? {
      assert OpenSince(ty, i, i + 1);
    } else if Open(ty, i) && !ty[i].Colon? {
      var k :| OpenSince(ty, k, i);
      assert OpenSince(ty, k, i + 1);
    } else if Open(ty, i + 1) {
      var k :| OpenSince(ty, k, i + 1);
      assert OpenSince(ty, k, i);
    }
  }

  lemma {:induction false} NamedStep(ty: seq<Token>, i: nat)
    requires i < |ty|
    ensures Named(ty, i + 1) <==> !ty[i].Comma? && !ty[i].Colon? && (Named(ty, i) || (IsName(ty[i]) && Open(ty, i)))
  {
    if Named(ty, i + 1) {
      var k: nat, w: nat :| OpenSince(ty, k, i + 1) && k < w < i + 1 && IsName(ty[w]);
      assert OpenSince(ty, k, i);
      assert w < i ==> Named(ty, i);
    }
    if !ty[i].Comma? && !ty[i].Colon? {
      if Named(ty, i) {
        var k: nat, w: nat :| OpenSince(ty, k, i) && k < w < i && IsName(ty[w]);
        assert OpenSince(ty, k, i + 1);
      } else if IsName(ty[i]) && Open(ty, i) {
        var k :| OpenSince(ty, k, i);
        assert OpenSince(ty, k, i + 1);
      }
    }
  }

  /** Past the first `i` tokens of a type the loop stops at exactly the colons that follow no name. */
  lemma {:induction false} AcceptsType(ty: seq<Token>, i: nat, rest: seq<Token>)
    requires i <= |ty|
    ensures Accepts(ty[i..] + [Comma] + rest, Named(ty, i), Open(ty, i))
       <==> ColonsNamed(ty, i) && Accepts(rest, false, true)
    ensures Accepts(ty[i..], Named(ty, i), Open(ty, i)) <==> ColonsNamed(ty, i)
    decreases |ty| - i
  {
    var all := ty[i..] + [Comma] + rest;
    if i == |ty| {
      assert all[0] == Comma && all[1..] == rest;
    } else {
      assert all[0] == ty[i] && all[1..] == ty[i + 1..] + [Comma] + rest && ty[i..][1..] == ty[i + 1..];
      OpenStep(ty, i);
      NamedStep(ty, i);
      AcceptsType(ty, i + 1, rest);
      assert ColonsNamed(ty, i) <==> (ty[i].Colon? ==> Named(ty, i)) && ColonsNamed(ty, i + 1);
    }
  }

  /** From the name of a field on. */
  lemma {:induction false} AcceptsField(f: Field, rest: seq<Token>)
    requires IsPrefix(f.prefix) && f.name != "pub"
    ensures Accepts(FieldTokens(f) + ([Comma] + rest), false, true) <==> ColonsNamed(f.ty, 0) && Accepts(rest, false, true)
    ensures Accepts(FieldTokens(f), false, true) <==> ColonsNamed(f.ty, 0)
  {
    assert !Open(f.ty, 0) && !Named(f.ty, 0);
    AcceptsType(f.ty, 0, rest);
    assert f.ty[0..] == f.ty && f.ty + [Comma] + rest == f.ty + ([Comma] + rest);
    AcceptsFieldName(f, [Comma] + rest);
    AcceptsFieldName(f, []);
    assert FieldTokens(f) + [] == FieldTokens(f) && f.ty + [] == f.ty;
  }

  lemma {:induction false} AcceptsFieldName(f: Field, rest: seq<Token>)
    requires IsPrefix(f.prefix) && f.name != "pub"
    ensures Accepts(FieldTokens(f) + rest, false, true) <==> Accepts(f.ty + rest, false, false)
  {
    RunFieldName(f, rest, []);
    FoundIffAccepts(FieldTokens(f) + rest, [], NoCandidate, true);
    FoundIffAccepts(f.ty + rest, [] + [f.name], NoCandidate, false);
  }

  lemma {:induction false} AcceptsList(fields: seq<Field>, trailing: bool)
    requires WellFormed(fields)
    ensures Accepts(ListTokens(fields, trailing), false, true) <==> AllColonsNamed(fields)
  {
    if fields != [] {
      var f, rest := fields[0], ListTokens(fields[1..], trailing);
      AcceptsList(fields[1..], trailing);
      AcceptsField(f, rest);
      if |fields| > 1 {
        assert FieldTokens(f) + [Comma] + rest == FieldTokens(f) + ([Comma] + rest);
        SplitFields(fields);
      } else {
        assert FieldTokens(f) + [] == FieldTokens(f) && [Comma] + [] == [Comma];
      }
    }
  }

  lemma {:induction false} SplitFields(fields: seq<Field>)
    requires fields != []
    ensures AllColonsNamed(fields) <==> ColonsNamed(fields[0].ty, 0) && AllColonsNamed(fields[1..])
  {
    assert forall i :: 0 < i < |fields| ==> fields[i] == fields[1..][i - 1];
    assert forall i :: 0 <= i < |fields| - 1 ==> fields[1..][i] == fields[i + 1];
  }

  /** The loop returns a list exactly when every colon of a type has, since the last comma of that type, a word other
      than `pub` and no other colon; and the list is a wrong one exactly when, besides, some type holds a colon. */
  lemma {:induction false} ListIffColonsNamed(fields: seq<Field>, trailing: bool)
    requires WellFormed(fields)
    ensures var r := Run(ListTokens(fields, trailing), [], NoCandidate, true);
            && (r.Found? <==> AllColonsNamed(fields))
            && (r.Found? && r.value != Names(fields) <==> AllColonsNamed(fields) && !NoColons(fields))
  {
    FoundIffAccepts(ListTokens(fields, trailing), [], NoCandidate, true);
    AcceptsList(fields, trailing);
    NamesIffNoColons(fields, trailing);
  }

  // ----- the declaration loop

  /** What the outer loop finds: the last name after `struct`, and the first brace group. */
  function Scan(tokens: seq<Token>, name: Candidate): Parsed<(Candidate, bool, seq<Token>)> {
    if tokens == [] then Found((name, false, []))
    else if tokens[0] == Word("struct") then
      if |tokens| >= 2 && tokens[1].Word? then Scan(tokens[2..], Candidate(tokens[1].text)) else Failed(NO_NAME)
    else if tokens[0].Group? && tokens[0].delimiter.Brace? then Found((name, true, tokens[0].stream))
    else Scan(tokens[1..], name)
  }

  /** The struct name and the fields in the order in which the generated code hashes them. */
  function Expanded(tokens: seq<Token>): Parsed<(string, seq<string>)> {
    match Scan(tokens, NoCandidate)
    case Failed(m) => Failed(m)
    case Found((name, hasBody, stream)) =>
      if name.NoCandidate? then Failed(NOT_A_STRUCT)
      else if !hasBody then Failed(NO_BODY)
      else
        match Run(stream, [], NoCandidate, true)
        case Failed(m) => Failed(m)
        case Found(fields) => if fields == [] then Failed(NO_FIELDS) else Found((name.name, fields))
  }

  // ----- the generated code

  /** A statement of the generated function. */
  datatype Statement = HashName(name: string) | HashField(field: string)

  /** The struct name, then each field's name and value, in the order of the list. */
  function Statements(name: string, fields: seq<string>): seq<Statement> {
    [HashName(name)] + FieldStatements(fields)
  }

  function FieldStatements(fields: seq<string>): seq<Statement> {
    if fields == [] then []
    else FieldStatements(fields[..|fields| - 1]) + [HashName(fields[|fields| - 1]), HashField(fields[|fields| - 1])]
  }

  function Code(s: Statement): string {
    match s
    case HashName(name) => "state.str(\"" + name + "\");"
    case HashField(field) => "tracehash::TraceHash::trace_hash(&self." + field + ", state);"
  }

  function AllCode(statements: seq<Statement>): string {
    if statements == [] then "" else AllCode(statements[..|statements| - 1]) + Code(statements[|statements| - 1])
  }

  function Head(name: string): string {
    "impl tracehash::TraceHash for " + name + " { fn trace_hash(&self, state: &mut tracehash::Fnv64) {"
  }

  /** The text of the generated implementation. */
  function Generated(name: string, fields: seq<string>): string {
    Head(name) + AllCode(Statements(name, fields)) + "} }"
  }

  lemma {:induction false} AllCodePush(statements: seq<Statement>, s: Statement)
    ensures AllCode(statements + [s]) == AllCode(statements) + Code(s)
  {
    assert (statements + [s])[..|statements|] == statements;
  }

  lemma {:induction false} FieldCode(name: string, fields: seq<string>, i: nat)
    requires i < |fields|
    ensures AllCode(Statements(name, fields[..i + 1]))
         == AllCode(Statements(name, fields[..i])) + Code(HashName(fields[i])) + Code(HashField(fields[i]))
  {
    assert fields[..i + 1][..i] == fields[..i];
    var before, f := Statements(name, fields[..i]), fields[i];
    assert Statements(name, fields[..i + 1]) == before + [HashName(f)] + [HashField(f)];
    AllCodePush(before, HashName(f));
    AllCodePush(before + [HashName(f)], HashField(f));
  }

  lemma {:induction false} Grow(out: string, a: string, b: string, c: string)
    ensures out + a + b + c == out + (a + b + c)
  {
  }

  /** The loop that grows the text, behind what is there already. */
  method PushStatements(head: string, name: string, fields: seq<string>) returns (out: string)
    ensures out == head + AllCode(Statements(name, fields))
  {
    var first := Code(HashName(name));
    out := head + first;
    FirstCode(name);
    assert fields[..0] == [];
    for i := 0 to |fields|
      invariant out == head + AllCode(Statements(name, fields[..i]))
    {
      FieldCode(name, fields, i);
      var a, b := Code(HashName(fields[i])), Code(HashField(fields[i]));
      Grow(head, AllCode(Statements(name, fields[..i])), a, b);
      out := out + a;
      out := out + b;
    }
    assert fields[..|fields|] == fields;
  }

  lemma {:induction false} FirstCode(name: string)
    ensures AllCode(Statements(name, [])) == Code(HashName(name))
  {
    assert Statements(name, []) == [] + [HashName(name)];
    AllCodePush([], HashName(name));
    assert "" + Code(HashName(name)) == Code(HashName(name));
  }

  method Generate(name: string, fields: seq<string>) returns (out: string)
    ensures out == Generated(name, fields)
  {
    out := Head(name);
    out := PushStatements(out, name, fields);
    out := out + "} }";
  }

  // ----- reading the generated code

  /** A statement by its text. */
  function ReadCode(code: string): Option<Statement> {
    var str, hash := "state.str(\"", "tracehash::TraceHash::trace_hash(&self.";
    if |code| >= |str| + 2 && code[..|str|] == str && code[|code| - 2..] == "\")" then
      Some(HashName(code[|str|..|code| - 2]))
    else if |code| >= |hash| + 8 && code[..|hash|] == hash && code[|code| - 8..] == ", state)" then
      Some(HashField(code[|hash|..|code| - 8]))
    else None
  }

  /** The statements of a body, each up to its semicolon. */
  function ReadBody(body: string): seq<Statement>
    decreases |body|
  {
    var n := Find(body, ';');
    if n == |body| then []
    else (match ReadCode(body[..n]) case None => [] case Some(s) => [s]) + ReadBody(body[n + 1..])
  }

  function Label(s: Statement): string {
    match s
    case HashName(name) => name
    case HashField(field) => field
  }

  lemma {:induction false} ReadCodeOf(s: Statement, code: string)
    requires code + ";" == Code(s)
    ensures ReadCode(code) == Some(s)
  {
    var str, hash := "state.str(\"", "tracehash::TraceHash::trace_hash(&self.";
    match s {
      case HashName(name) =>
        assert code == str + name + "\")" by { DropLast(code, ";", str + name + "\")"); }
        Between(str, name, "\")");
      case HashField(field) =>
        assert code == hash + field + ", state)" by { DropLast(code, ";", hash + field + ", state)"); }
        Between(hash, field, ", state)");
        assert code[0] == 't';
    }
  }

  lemma {:induction false} DropLast(a: string, c: string, b: string)
    requires a + c == b + c
    ensures a == b
  {
    assert a == (a + c)[..|a|] && b == (b + c)[..|b|];
  }

  lemma {:induction false} Between(a: string, b: string, c: string)
    ensures var t := a + b + c; t[..|a|] == a && t[|a|..|t| - |c|] == b && t[|t| - |c|..] == c
  {
  }

  /** The text of a statement up to its semicolon. */
  lemma {:induction false} CodeEnds(s: Statement) returns (code: string)
    requires Lacks(Label(s), ';')
    ensures code + ";" == Code(s) && Lacks(code, ';')
  {
    code := match s
            case HashName(name) => "state.str(\"" + name + "\")"
            case HashField(field) => "tracehash::TraceHash::trace_hash(&self." + field + ", state)";
    assert code + ";" == Code(s);
  }

  lemma {:induction false} ReadBodyCons(s: Statement, rest: string)
    requires Lacks(Label(s), ';')
    ensures ReadBody(Code(s) + rest) == [s] + ReadBody(rest)
  {
    var code := CodeEnds(s);
    ReadCodeOf(s, code);
    FindAt(code, ';', rest);
    var t := code + [';'] + rest;
    assert t == Code(s) + rest && t[..|code|] == code && t[|code| + 1..] == rest;
  }

  lemma {:induction false} ReadBodyOf(statements: seq<Statement>, rest: string, whole: string)
    requires whole == AllCode(statements) + rest
    requires forall i :: 0 <= i < |statements| ==> Lacks(Label(statements[i]), ';')
    ensures ReadBody(whole) == statements + ReadBody(rest)
    decreases |statements|
  {
    if statements == [] {
      assert whole == rest;
    } else {
      var front, last := statements[..|statements| - 1], statements[|statements| - 1];
      var more := Code(last) + rest;
      Cat(AllCode(front), Code(last), rest);
      ReadBodyOf(front, more, whole);
      ReadBodyCons(last, rest);
      LastBack(statements, ReadBody(rest));
    }
  }

  lemma {:induction false} LastBack(statements: seq<Statement>, more: seq<Statement>)
    requires statements != []
    ensures statements[..|statements| - 1] + ([statements[|statements| - 1]] + more) == statements + more
  {
  }

  lemma {:induction false} Cat<T>(a: seq<T>, b: seq<T>, c: seq<T>)
    ensures a + b + c == a + (b + c)
  {
  }

  /** The body of the generated text, read statement by statement, is the struct name and then the name and the value of
      every field, in order. Identifiers hold no semicolon. */
  lemma {:induction false} GeneratedReads(name: string, fields: seq<string>) returns (body: string)
    requires Lacks(name, ';') && forall i :: 0 <= i < |fields| ==> Lacks(fields[i], ';')
    ensures Generated(name, fields) == "impl tracehash::TraceHash for " + name
              + " { fn trace_hash(&self, state: &mut tracehash::Fnv64) {" + body + "} }"
    ensures ReadBody(body) == Statements(name, fields)
  {
    body := AllCode(Statements(name, fields));
    LabelsLack(fields);
    assert body == AllCode(Statements(name, fields)) + "";
    ReadBodyOf(Statements(name, fields), "", body);
    assert Statements(name, fields) + [] == Statements(name, fields);
  }

  lemma {:induction false} LabelsLack(fields: seq<string>)
    requires forall i :: 0 <= i < |fields| ==> Lacks(fields[i], ';')
    ensures forall i :: 0 <= i < |FieldStatements(fields)| ==> Lacks(Label(FieldStatements(fields)[i]), ';')
  {
    if fields != [] {
      LabelsLack(fields[..|fields| - 1]);
    }
  }

  method Expand(tokens: seq<Token>) returns (r: Parsed<string>)
    ensures r == match Expanded(tokens)
                 case Failed(m) => Failed(m)
                 case Found((name, fields)) => Found(Generated(name, fields))
  {
    var i := 0;
    var name, found, stream: seq<Token> := NoCandidate, false, [];
    while i < |tokens| && !found
      invariant 0 <= i <= |tokens|
      invariant Scan(tokens, NoCandidate)
             == if found then Found((name, true, stream)) else Scan(tokens[i..], name)
      decreases |tokens| - i, !found
    {
      var token := tokens[i];
      assert tokens[i..][1..] == tokens[i + 1..];
      i := i + 1;
      if token == Word("struct") {
        if i < |tokens| && tokens[i].Word? {
          assert tokens[i - 1..][2..] == tokens[i + 1..];
          name := Candidate(tokens[i].text);
          i := i + 1;
        } else {
          return Failed(NO_NAME);
        }
      } else if token.Group? && token.delimiter.Brace? {
        found, stream := true, token.stream;
      }
    }
    if name.NoCandidate? {
      return Failed(NOT_A_STRUCT);
    }
    if !found {
      return Failed(NO_BODY);
    }
    var fields := ParseNamedFields(stream);
    match fields {
      case Failed(m) =>
        return Failed(m);
      case Found(names) =>
        if names == [] {
          return Failed(NO_FIELDS);
        }
        var out := Generate(name.name, names);
        return Found(out);
    }
  }

  /** Neither the keyword nor a brace group. */
  predicate Plain(tokens: seq<Token>) {
    forall i :: 0 <= i < |tokens| ==> tokens[i] != Word("struct") && !(tokens[i].Group? && tokens[i].delimiter.Brace?)
  }

  lemma {:induction false} ScanPlain(tokens: seq<Token>, rest: seq<Token>, name: Candidate)
    requires Plain(tokens)
    ensures Scan(tokens + rest, name) == Scan(rest, name)
  {
    if tokens == [] {
      assert tokens + rest == rest;
    } else {
      ScanPlain(tokens[1..], rest, name);
      assert (tokens + rest)[1..] == tokens[1..] + rest;
    }
  }

  /** A struct declaration: attributes and visibility, the name, generics and bounds, and the fields. The macro
      emits exactly the declared names in order if and only if there is a field and no type holds a colon. */
  lemma {:induction false} StructExpands(front: seq<Token>, name: string, generics: seq<Token>, fields: seq<Field>,
                                         trailing: bool, after: seq<Token>)
    requires Plain(front) && Plain(generics) && WellFormed(fields)
    ensures Expanded(front + [Word("struct"), Word(name)] + generics + [Group(Brace, ListTokens(fields, trailing))] + after)
         == Found((name, Names(fields)))
       <==> fields != [] && NoColons(fields)
  {
    var body := [Group(Brace, ListTokens(fields, trailing))] + after;
    var tail := [Word("struct"), Word(name)] + (generics + body);
    assert front + [Word("struct"), Word(name)] + generics + [Group(Brace, ListTokens(fields, trailing))] + after
        == front + tail;
    ScanPlain(front, tail, NoCandidate);
    assert tail[2..] == generics + body;
    ScanPlain(generics, body, Candidate(name));
    NamesIffNoColons(fields, trailing);
    assert Names(fields) == [] <==> fields == [];
  }

  /** What a declaration is answered with that is no struct with named fields. */
  lemma {:induction false} OtherDeclarations(front: seq<Token>, name: string, generics: seq<Token>, body: seq<Token>,
                                             after: seq<Token>)
    requires Plain(front) && Plain(generics)
    ensures Expanded(front) == Failed("TraceHash derive currently supports structs")
    ensures Expanded(front + [Group(Brace, body)] + after) == Failed("TraceHash derive currently supports structs")
    ensures Expanded(front + [Word("struct")]) == Failed("TraceHash derive expected a struct name")
    ensures after != [] && !after[0].Word? ==>
              Expanded(front + ([Word("struct")] + after)) == Failed("TraceHash derive expected a struct name")
    ensures Expanded(front + ([Word("struct"), Word(name)] + generics))
         == Failed("TraceHash derive currently supports structs with named fields")
    ensures Expanded(front + ([Word("struct"), Word(name)] + (generics + [Group(Brace, [])])))
         == Failed("TraceHash derive found no named fields")
  {
    ScanPlain(front, [], NoCandidate);
    assert front + [] == front;
    ScanPlain(front, [Group(Brace, body)] + after, NoCandidate);
    assert front + [Group(Brace, body)] + after == front + ([Group(Brace, body)] + after);
    ScanPlain(front, [Word("struct")], NoCandidate);
    ScanPlain(front, [Word("struct")] + after, NoCandidate);
    NamedDeclarations(front, name, generics, []);
    NamedDeclarations(front, name, generics, [Group(Brace, [])]);
    assert generics + [] == generics;
  }

  lemma {:induction false} NamedDeclarations(front: seq<Token>, name: string, generics: seq<Token>, rest: seq<Token>)
    requires Plain(front) && Plain(generics)
    ensures Scan(front + ([Word("struct"), Word(name)] + (generics + rest)), NoCandidate) == Scan(rest, Candidate(name))
  {
    var tail := [Word("struct"), Word(name)] + (generics + rest);
    ScanPlain(front, tail, NoCandidate);
    assert tail[2..] == generics + rest;
    ScanPlain(generics, rest, Candidate(name));
  }
}
