/** The `TraceHash` encoding of typed values: integers, bools, floats, strings, vectors, options
    and derived structs. */
module TypedHash {
  import opened Bytes
  import opened Probes
  import opened Derive
  import opened Text

  /** A hashable type. The unsigned and signed integers of every width hash alike, so one type
      each, of the widest range, stands for all of them. */
  datatype Ty =
    | TyUnsigned | TySigned | TyBool | TyF32 | TyF64 | TyStr
    | TyVec(elem: Ty)
    | TyOption(inner: Ty)
    | TyStruct(name: Name, fields: seq<FieldTy>)

  datatype FieldTy = FieldTy(name: Name, ty: Ty)

  datatype Val =
    | VUnsigned(u: nat) | VSigned(i: int) | VBool(b: bool) | VBits(bits: nat) | VStr(s: seq<byte>)
    | VVec(items: seq<Val>)
    | VNone
    | VSome(v: Val)
    | VStruct(values: seq<Val>)

  predicate HasType(v: Val, ty: Ty)
    decreases v, 1
  {
    match ty
    case TyUnsigned => v.VUnsigned? && v.u < TWO64
    case TySigned => v.VSigned? && -0x8000_0000_0000_0000 <= v.i < 0x8000_0000_0000_0000
    case TyBool => v.VBool?
    case TyF32 => v.VBits? && v.bits < TWO32
    case TyF64 => v.VBits? && v.bits < TWO64
    case TyStr => v.VStr? && |v.s| < TWO64
    case TyVec(e) => v.VVec? && |v.items| < TWO64 && AllHaveType(v.items, e)
    case TyOption(e) => v.VNone? || (v.VSome? && HasType(v.v, e))
    case TyStruct(_, fields) => v.VStruct? && HaveTypes(v.values, fields)
  }

  predicate AllHaveType(vs: seq<Val>, ty: Ty)
    decreases vs, 0
  {
    vs == [] || (HasType(vs[0], ty) && AllHaveType(vs[1..], ty))
  }

  predicate HaveTypes(vs: seq<Val>, fields: seq<FieldTy>)
    decreases vs, 0
  {
    |vs| == |fields| && (vs == [] || (HasType(vs[0], fields[0].ty) && HaveTypes(vs[1..], fields[1..])))
  }

  function TraceBytes(v: Val, ty: Ty): seq<byte>
    requires HasType(v, ty)
    decreases v, 1
  {
    match ty
    case TyUnsigned => [HASH_U] + Le(v.u, 8)
    case TySigned => [HASH_U] + Le(AsU64(v.i), 8)
    case TyBool => [HASH_B, if v.b then 1 else 0]
    case TyF32 => [HASH_F] + Le(v.bits, 4)
    case TyF64 => [HASH_D] + Le(v.bits, 8)
    case TyStr => [HASH_S] + StrBytes(v.s)
    case TyVec(e) => [HASH_L] + Le(|v.items|, 8) + ItemsBytes(v.items, e)
    case TyOption(e) => if v.VNone? then [HASH_NONE] else [HASH_SOME] + TraceBytes(v.v, e)
    case TyStruct(name, fields) => StrBytes(name) + FieldsBytes(v.values, fields)
  }

  const HASH_S: byte := 0x53
  const HASH_L: byte := 0x4C
  const HASH_NONE: byte := 0x30
  const HASH_SOME: byte := 0x31

  function ItemsBytes(vs: seq<Val>, ty: Ty): seq<byte>
    requires AllHaveType(vs, ty)
    decreases vs, 0
  {
    if vs == [] then [] else TraceBytes(vs[0], ty) + ItemsBytes(vs[1..], ty)
  }

  /** The derived encoding: every field name and then its value, in declaration order. */
  function FieldsBytes(vs: seq<Val>, fields: seq<FieldTy>): seq<byte>
    requires HaveTypes(vs, fields)
    decreases vs, 0
  {
    if vs == [] then []
    else StrBytes(fields[0].name) + TraceBytes(vs[0], fields[0].ty) + FieldsBytes(vs[1..], fields[1..])
  }

  lemma {:induction false} Tagged(tag: byte, a: seq<byte>, s: seq<byte>, b: seq<byte>, t: seq<byte>)
    requires [tag] + a + s == [tag] + b + t
    ensures a + s == b + t
  {
    TagPrefix(tag, a, s);
    TagPrefix(tag, b, t);
  }

  /** Values of one type: their encodings tell them apart, whatever follows. */
  lemma {:induction false} TracePrefixFree(v: Val, w: Val, ty: Ty, s: seq<byte>, t: seq<byte>)
    requires HasType(v, ty) && HasType(w, ty)
    requires TraceBytes(v, ty) + s == TraceBytes(w, ty) + t
    ensures v == w && s == t
    decreases v, 1
  {
    match ty {
      case TyVec(e) =>
        VecPrefixFree(v, w, e, s, t);
      case TyOption(e) =>
        OptionPrefixFree(v, w, e, s, t);
      case TyStruct(name, fields) =>
        StructPrefixFree(v, w, name, fields, s, t);
      case _ =>
        LeafPrefixFree(v, w, ty, s, t);
    }
  }

  lemma {:induction false} LeafPrefixFree(v: Val, w: Val, ty: Ty, s: seq<byte>, t: seq<byte>)
    requires !ty.TyVec? && !ty.TyOption? && !ty.TyStruct?
    requires HasType(v, ty) && HasType(w, ty)
    requires TraceBytes(v, ty) + s == TraceBytes(w, ty) + t
    ensures v == w && s == t
  {
    Widths();
    match ty {
      case TyUnsigned =>
        Tagged(HASH_U, Le(v.u, 8), s, Le(w.u, 8), t);
        LePrefixFree(v.u, w.u, 8, s, t);
      case TySigned =>
        AsU64Injective(v.i, w.i);
        AsU64Injective(w.i, v.i);
        Tagged(HASH_U, Le(AsU64(v.i), 8), s, Le(AsU64(w.i), 8), t);
        LePrefixFree(AsU64(v.i), AsU64(w.i), 8, s, t);
      case TyBool =>
        SplitEqual(TraceBytes(v, ty), s, TraceBytes(w, ty), t);
        assert TraceBytes(v, ty)[1] == TraceBytes(w, ty)[1];
      case TyF32 =>
        Tagged(HASH_F, Le(v.bits, 4), s, Le(w.bits, 4), t);
        LePrefixFree(v.bits, w.bits, 4, s, t);
      case TyF64 =>
        Tagged(HASH_D, Le(v.bits, 8), s, Le(w.bits, 8), t);
        LePrefixFree(v.bits, w.bits, 8, s, t);
      case TyStr =>
        Tagged(HASH_S, StrBytes(v.s), s, StrBytes(w.s), t);
        StrPrefixFree(v.s, w.s, s, t);
    }
  }

  lemma {:induction false} VecPrefixFree(v: Val, w: Val, e: Ty, s: seq<byte>, t: seq<byte>)
    requires HasType(v, TyVec(e)) && HasType(w, TyVec(e))
    requires TraceBytes(v, TyVec(e)) + s == TraceBytes(w, TyVec(e)) + t
    ensures v == w && s == t
    decreases v, 0
  {
    Widths();
    var a, b := ItemsBytes(v.items, e), ItemsBytes(w.items, e);
    Cons3(HASH_L, Le(|v.items|, 8), a, s);
    Cons3(HASH_L, Le(|w.items|, 8), b, t);
    LePrefixFree(|v.items|, |w.items|, 8, a + s, b + t);
    ItemsPrefixFree(v.items, w.items, e, s, t);
  }

  lemma {:induction false} OptionPrefixFree(v: Val, w: Val, e: Ty, s: seq<byte>, t: seq<byte>)
    requires HasType(v, TyOption(e)) && HasType(w, TyOption(e))
    requires TraceBytes(v, TyOption(e)) + s == TraceBytes(w, TyOption(e)) + t
    ensures v == w && s == t
    decreases v, 0
  {
    assert TraceBytes(v, TyOption(e))[0] == (TraceBytes(v, TyOption(e)) + s)[0];
    assert TraceBytes(w, TyOption(e))[0] == (TraceBytes(w, TyOption(e)) + t)[0];
    if v.VNone? {
      SplitEqual([HASH_NONE], s, [HASH_NONE], t);
    } else {
      Tagged(HASH_SOME, TraceBytes(v.v, e), s, TraceBytes(w.v, e), t);
      TracePrefixFree(v.v, w.v, e, s, t);
    }
  }

  lemma {:induction false} StructPrefixFree(v: Val, w: Val, name: Name, fields: seq<FieldTy>, s: seq<byte>, t: seq<byte>)
    requires var ty := TyStruct(name, fields);
             HasType(v, ty) && HasType(w, ty) && TraceBytes(v, ty) + s == TraceBytes(w, ty) + t
    ensures v == w && s == t
    decreases v, 0
  {
    var a, b := FieldsBytes(v.values, fields), FieldsBytes(w.values, fields);
    CatAssoc(StrBytes(name), a, s);
    CatAssoc(StrBytes(name), b, t);
    SplitEqual(StrBytes(name), a + s, StrBytes(name), b + t);
    FieldsPrefixFree(v.values, w.values, fields, s, t);
  }

  lemma {:induction false} ItemsPrefixFree(vs: seq<Val>, ws: seq<Val>, ty: Ty, s: seq<byte>, t: seq<byte>)
    requires |vs| == |ws| && AllHaveType(vs, ty) && AllHaveType(ws, ty)
    requires ItemsBytes(vs, ty) + s == ItemsBytes(ws, ty) + t
    ensures vs == ws && s == t
    decreases vs, 0
  {
    if vs == [] {
      assert [] + s == s && [] + t == t;
    } else {
      var a, b := ItemsBytes(vs[1..], ty), ItemsBytes(ws[1..], ty);
      assert ItemsBytes(vs, ty) + s == TraceBytes(vs[0], ty) + (a + s);
      assert ItemsBytes(ws, ty) + t == TraceBytes(ws[0], ty) + (b + t);
      TracePrefixFree(vs[0], ws[0], ty, a + s, b + t);
      ItemsPrefixFree(vs[1..], ws[1..], ty, s, t);
      assert vs == [vs[0]] + vs[1..] && ws == [ws[0]] + ws[1..];
    }
  }

  lemma {:induction false} FieldsBytesCons(vs: seq<Val>, fields: seq<FieldTy>, s: seq<byte>)
    requires vs != [] && HaveTypes(vs, fields)
    ensures FieldsBytes(vs, fields) + s
         == StrBytes(fields[0].name) + (TraceBytes(vs[0], fields[0].ty) + (FieldsBytes(vs[1..], fields[1..]) + s))
  {
    var name, head, rest := StrBytes(fields[0].name), TraceBytes(vs[0], fields[0].ty), FieldsBytes(vs[1..], fields[1..]);
    assert FieldsBytes(vs, fields) == name + head + rest;
    CatAssoc(name + head, rest, s);
    CatAssoc(name, head, rest + s);
  }

  lemma {:induction false} FieldsPrefixFree(vs: seq<Val>, ws: seq<Val>, fields: seq<FieldTy>,
                                            s: seq<byte>, t: seq<byte>)
    requires HaveTypes(vs, fields) && HaveTypes(ws, fields)
    requires FieldsBytes(vs, fields) + s == FieldsBytes(ws, fields) + t
    ensures vs == ws && s == t
    decreases vs, 0
  {
    if vs == [] {
      assert [] + s == s && [] + t == t;
    } else {
      var name, ty := StrBytes(fields[0].name), fields[0].ty;
      var a, b := FieldsBytes(vs[1..], fields[1..]) + s, FieldsBytes(ws[1..], fields[1..]) + t;
      FieldsBytesCons(vs, fields, s);
      FieldsBytesCons(ws, fields, t);
      SplitEqual(name, TraceBytes(vs[0], ty) + a, name, TraceBytes(ws[0], ty) + b);
      TracePrefixFree(vs[0], ws[0], ty, a, b);
      FieldsPrefixFree(vs[1..], ws[1..], fields[1..], s, t);
      assert vs == [vs[0]] + vs[1..] && ws == [ws[0]] + ws[1..];
    }
  }

  // ----- the two sides of a struct field

  function ScalarVal(s: Scalar): Val {
    match s
    case UInt(u) => VUnsigned(u)
    case SInt(i) => VSigned(i)
    case Flag(b) => VBool(b)
    case Single(bits) => VBits(bits)
    case Double(bits) => VBits(bits)
  }

  function ScalarTy(s: Scalar): Ty {
    match s
    case UInt(_) => TyUnsigned
    case SInt(_) => TySigned
    case Flag(_) => TyBool
    case Single(_) => TyF32
    case Double(_) => TyF64
  }

  /** A byte vector as the derived implementation sees it. */
  function ByteVals(data: seq<byte>): (vs: seq<Val>)
    ensures |vs| == |data| && AllHaveType(vs, TyUnsigned)
  {
    if data == [] then [] else [VUnsigned(data[0])] + ByteVals(data[1..])
  }

  function ArgVal(a: Arg): Val {
    if a.Plain? then ScalarVal(a.scalar) else VVec(ByteVals(a.data))
  }

  function ArgTy(a: Arg): Ty {
    if a.Plain? then ScalarTy(a.scalar) else TyVec(TyUnsigned)
  }

  function FieldVals(fields: seq<NamedArg>): (vs: seq<Val>)
    ensures |vs| == |fields|
  {
    if fields == [] then [] else [ArgVal(fields[0].value)] + FieldVals(fields[1..])
  }

  function FieldTys(fields: seq<NamedArg>): (ts: seq<FieldTy>)
    ensures |ts| == |fields|
  {
    if fields == [] then [] else [FieldTy(fields[0].name, ArgTy(fields[0].value))] + FieldTys(fields[1..])
  }

  predicate AllFit(fields: seq<NamedArg>) {
    forall i :: 0 <= i < |fields| ==> ArgFits(fields[i].value)
  }

  lemma {:induction false} ArgHasType(a: Arg)
    requires ArgFits(a)
    ensures HasType(ArgVal(a), ArgTy(a))
    ensures a.Plain? ==> TraceBytes(ArgVal(a), ArgTy(a)) == ArgBytes(a)
    ensures a.Blob? ==> TraceBytes(ArgVal(a), ArgTy(a))[0] == HASH_L && ArgBytes(a)[0] == HASH_Y
  {
  }

  lemma {:induction false} FieldsHaveTypes(fields: seq<NamedArg>)
    requires AllFit(fields)
    ensures HaveTypes(FieldVals(fields), FieldTys(fields))
  {
    if fields != [] {
      ArgHasType(fields[0].value);
      FieldsHaveTypes(fields[1..]);
      assert FieldVals(fields)[1..] == FieldVals(fields[1..]) && FieldTys(fields)[1..] == FieldTys(fields[1..]);
    }
  }

  lemma {:induction false} DerivedFieldsCons(fields: seq<NamedArg>)
    requires fields != [] && AllFit(fields) && HaveTypes(FieldVals(fields), FieldTys(fields))
    ensures HaveTypes(FieldVals(fields[1..]), FieldTys(fields[1..]))
    ensures HasType(ArgVal(fields[0].value), ArgTy(fields[0].value))
    ensures FieldsBytes(FieldVals(fields), FieldTys(fields))
         == StrBytes(fields[0].name) + (TraceBytes(ArgVal(fields[0].value), ArgTy(fields[0].value))
            + FieldsBytes(FieldVals(fields[1..]), FieldTys(fields[1..])))
  {
    assert FieldVals(fields)[1..] == FieldVals(fields[1..]) && FieldTys(fields)[1..] == FieldTys(fields[1..]);
    CatAssoc(StrBytes(fields[0].name), TraceBytes(ArgVal(fields[0].value), ArgTy(fields[0].value)),
             FieldsBytes(FieldVals(fields[1..]), FieldTys(fields[1..])));
  }

  lemma {:induction false} DerivedFieldsIff(fields: seq<NamedArg>)
    requires AllFit(fields) && HaveTypes(FieldVals(fields), FieldTys(fields))
    ensures FieldsBytes(FieldVals(fields), FieldTys(fields)) == StructFieldsBytes(fields) <==> NoBytes(fields)
  {
    if fields != [] {
      DerivedFieldsCons(fields);
      DerivedFieldsIff(fields[1..]);
      DerivedFieldsStep(fields);
      assert NoBytes(fields) <==> fields[0].value.Plain? && NoBytes(fields[1..]);
    }
  }

  lemma {:induction false} DerivedFieldsStep(fields: seq<NamedArg>)
    requires fields != [] && AllFit(fields) && HaveTypes(FieldVals(fields), FieldTys(fields))
    requires HaveTypes(FieldVals(fields[1..]), FieldTys(fields[1..]))
    ensures FieldsBytes(FieldVals(fields), FieldTys(fields)) == StructFieldsBytes(fields)
       <==> fields[0].value.Plain?
            && FieldsBytes(FieldVals(fields[1..]), FieldTys(fields[1..])) == StructFieldsBytes(fields[1..])
  {
    var name, v, more := StrBytes(fields[0].name), fields[0].value, fields[1..];
    DerivedFieldsCons(fields);
    ArgHasType(v);
    CatAssoc(name, ArgBytes(v), StructFieldsBytes(more));
    FirstFieldDecides(name, TraceBytes(ArgVal(v), ArgTy(v)), FieldsBytes(FieldVals(more), FieldTys(more)),
                      ArgBytes(v), StructFieldsBytes(more));
  }

  lemma {:induction false} FirstFieldDecides(name: seq<byte>, a: seq<byte>, s: seq<byte>, b: seq<byte>, t: seq<byte>)
    requires a != [] && b != []
    ensures name + (a + s) == name + (b + t) ==> a[0] == b[0]
    ensures a == b ==> (name + (a + s) == name + (b + t) <==> s == t)
  {
    if name + (a + s) == name + (b + t) {
      SplitEqual(name, a + s, name, b + t);
      assert a[0] == (a + s)[0] && b[0] == (b + t)[0];
      if a == b {
        SplitEqual(a, s, b, t);
      }
    }
  }

  /** A struct probe feeds the bytes that the derived implementation of a struct of those fields feeds, exactly when it
      has no bytes field: a derived byte vector is tagged and counted element by element. */
  lemma {:induction false} DerivedStructIff(name: Name, fields: seq<NamedArg>)
    requires AllFit(fields)
    ensures var v, ty := VStruct(FieldVals(fields)), TyStruct(name, FieldTys(fields));
            && HasType(v, ty)
            && (OpBytes(StructProbe(name, fields)) == [HASH_V] + TraceBytes(v, ty) <==> NoBytes(fields))
  {
    FieldsHaveTypes(fields);
    DerivedFieldsIff(fields);
    SameBehind([HASH_V], StrBytes(name), StructFieldsBytes(fields), FieldsBytes(FieldVals(fields), FieldTys(fields)));
  }

  lemma {:induction false} SameBehind(tag: seq<byte>, name: seq<byte>, a: seq<byte>, b: seq<byte>)
    ensures tag + name + a == tag + (name + b) <==> a == b
  {
    CatAssoc(tag, name, b);
    if tag + name + a == tag + name + b {
      SplitEqual(tag + name, a, tag + name, b);
    }
  }

  // ----- the generated implementation

  /** What the generated statements feed to the hash. `text` gives the bytes of a name, `field` what the value of a field
      feeds. */
  function Feed(statements: seq<Statement>, text: string -> Name, field: string -> seq<byte>): seq<byte> {
    if statements == [] then []
    else
      var last := statements[|statements| - 1];
      Feed(statements[..|statements| - 1], text, field)
      + match last
        case HashName(name) => StrBytes(text(name))
        case HashField(f) => field(f)
  }

  lemma {:induction false} FeedPush(statements: seq<Statement>, s: Statement, text: string -> Name,
                                    field: string -> seq<byte>)
    ensures Feed(statements + [s], text, field) == Feed(statements, text, field) +
      match s
      case HashName(name) => StrBytes(text(name))
      case HashField(f) => field(f)
  {
    assert (statements + [s])[..|statements|] == statements;
  }

  /** The fields of a struct type with the given names and types. */
  function NamedTys(names: seq<string>, tys: seq<Ty>, text: string -> Name): (fields: seq<FieldTy>)
    requires |names| == |tys|
    ensures |fields| == |names|
  {
    seq(|names|, i requires 0 <= i < |names| => FieldTy(text(names[i]), tys[i]))
  }

  /** Each field of the value feeds its own encoding. */
  predicate FieldsFeed(names: seq<string>, vs: seq<Val>, tys: seq<Ty>, field: string -> seq<byte>) {
    |names| == |vs| == |tys| && forall i :: 0 <= i < |names| ==>
      HasType(vs[i], tys[i]) && field(names[i]) == TraceBytes(vs[i], tys[i])
  }

  lemma {:induction false} HaveTypesPush(vs: seq<Val>, v: Val, fields: seq<FieldTy>, f: FieldTy)
    requires HaveTypes(vs, fields) && HasType(v, f.ty)
    ensures HaveTypes(vs + [v], fields + [f])
    ensures FieldsBytes(vs + [v], fields + [f]) == FieldsBytes(vs, fields) + (StrBytes(f.name) + TraceBytes(v, f.ty))
  {
    if vs == [] {
      assert [] + [v] == [v] && [] + [f] == [f] && [v][1..] == [] && [f][1..] == [];
      assert FieldsBytes([v], [f]) == StrBytes(f.name) + TraceBytes(v, f.ty) + [];
    } else {
      assert (vs + [v])[1..] == vs[1..] + [v] && (fields + [f])[1..] == fields[1..] + [f];
      HaveTypesPush(vs[1..], v, fields[1..], f);
      CatAssoc(StrBytes(fields[0].name) + TraceBytes(vs[0], fields[0].ty), FieldsBytes(vs[1..], fields[1..]),
               StrBytes(f.name) + TraceBytes(v, f.ty));
    }
  }

  lemma {:induction false} FieldStatementsFeed(name: string, names: seq<string>, vs: seq<Val>, tys: seq<Ty>,
                                               text: string -> Name, field: string -> seq<byte>)
    requires FieldsFeed(names, vs, tys, field)
    ensures HaveTypes(vs, NamedTys(names, tys, text))
    ensures Feed(Statements(name, names), text, field)
         == StrBytes(text(name)) + FieldsBytes(vs, NamedTys(names, tys, text))
  {
    if names == [] {
      assert Statements(name, names) == [] + [HashName(name)];
      FeedPush([], HashName(name), text, field);
      assert [] + StrBytes(text(name)) == StrBytes(text(name)) + [];
    } else {
      var n := |names| - 1;
      FieldStatementsFeed(name, names[..n], vs[..n], tys[..n], text, field);
      NamedStep(names, vs, tys, text);
      FeedField(name, names, text, field);
      CatAssoc(StrBytes(text(name)), FieldsBytes(vs[..n], NamedTys(names[..n], tys[..n], text)),
               StrBytes(text(names[n])) + TraceBytes(vs[n], tys[n]));
    }
  }

  lemma {:induction false} NamedStep(names: seq<string>, vs: seq<Val>, tys: seq<Ty>, text: string -> Name)
    requires names != [] && |names| == |vs| == |tys| && HasType(vs[|names| - 1], tys[|names| - 1])
    requires HaveTypes(vs[..|names| - 1], NamedTys(names[..|names| - 1], tys[..|names| - 1], text))
    ensures HaveTypes(vs, NamedTys(names, tys, text))
    ensures var n := |names| - 1;
            FieldsBytes(vs, NamedTys(names, tys, text))
            == FieldsBytes(vs[..n], NamedTys(names[..n], tys[..n], text))
               + (StrBytes(text(names[n])) + TraceBytes(vs[n], tys[n]))
  {
    var n := |names| - 1;
    var f, before := FieldTy(text(names[n]), tys[n]), NamedTys(names[..n], tys[..n], text);
    assert NamedTys(names, tys, text) == before + [f] && vs == vs[..n] + [vs[n]];
    HaveTypesPush(vs[..n], vs[n], before, f);
  }

  lemma {:induction false} FeedField(name: string, names: seq<string>, text: string -> Name, field: string -> seq<byte>)
    requires names != []
    ensures var n := |names| - 1;
            Feed(Statements(name, names), text, field)
            == Feed(Statements(name, names[..n]), text, field) + (StrBytes(text(names[n])) + field(names[n]))
  {
    var n := |names| - 1;
    var before := Statements(name, names[..n]);
    assert Statements(name, names) == before + [HashName(names[n])] + [HashField(names[n])];
    FeedPush(before, HashName(names[n]), text, field);
    FeedPush(before + [HashName(names[n])], HashField(names[n]), text, field);
    CatAssoc(Feed(before, text, field), StrBytes(text(names[n])), field(names[n]));
  }

  /** The text that the macro generates for a declared struct: its statements, read one by one, feed the encoding of the
      struct: its name, and the declared fields in order. Identifiers hold no semicolon. */
  lemma {:induction false} GeneratedFeedsStruct(tokens: seq<Token>, name: string, fields: seq<Field>, vs: seq<Val>,
                                                tys: seq<Ty>, text: string -> Name, field: string -> seq<byte>)
    returns (body: string)
    requires Expanded(tokens) == Found((name, Names(fields))) && FieldsFeed(Names(fields), vs, tys, field)
    requires Lacks(name, ';') && forall i :: 0 <= i < |fields| ==> Lacks(fields[i].name, ';')
    ensures Generated(Expanded(tokens).value.0, Expanded(tokens).value.1) == "impl tracehash::TraceHash for " + name
              + " { fn trace_hash(&self, state: &mut tracehash::Fnv64) {" + body + "} }"
    ensures var ty := TyStruct(text(name), NamedTys(Names(fields), tys, text));
            HasType(VStruct(vs), ty) && Feed(ReadBody(body), text, field) == TraceBytes(VStruct(vs), ty)
  {
    body := GeneratedReads(name, Names(fields));
    FieldStatementsFeed(name, Names(fields), vs, tys, text, field);
  }

  // ----- the tags

  /** The tag of every kind of value, and what counts behind it. */
  lemma {:induction false} TypeTags(v: Val, ty: Ty)
    requires HasType(v, ty)
    ensures match ty
            case TyUnsigned => TraceBytes(v, ty) == ['U' as int] + Le(v.u, 8)
            case TySigned => TraceBytes(v, ty)[0] == 'U' as int
            case TyBool => TraceBytes(v, ty) == ['B' as int, if v.b then 1 else 0]
            case TyF32 => TraceBytes(v, ty) == ['F' as int] + Le(v.bits, 4)
            case TyF64 => TraceBytes(v, ty) == ['D' as int] + Le(v.bits, 8)
            case TyStr => TraceBytes(v, ty) == ['S' as int] + Le(|v.s|, 8) + v.s
            case TyVec(e) => TraceBytes(v, ty) == ['L' as int] + Le(|v.items|, 8) + ItemsBytes(v.items, e)
            case TyOption(e) => TraceBytes(v, ty) == if v.VNone? then ['0' as int] else ['1' as int] + TraceBytes(v.v, e)
            case TyStruct(name, fields) => TraceBytes(v, ty) == Le(|name|, 8) + name + FieldsBytes(v.values, fields)
  {
    if ty.TyStr? {
      CatAssoc([HASH_S], Le(|v.s|, 8), v.s);
    }
  }

  /** A signed value of a type is fed like the unsigned one that differs by a multiple of 2^64. */
  lemma {:induction false} SignedValue(x: i64, u: u64)
    ensures TraceBytes(VSigned(x), TySigned) == TraceBytes(VUnsigned(u), TyUnsigned)
       <==> (x - u) % 0x1_0000_0000_0000_0000 == 0
  {
    SignedBytes(x, u);
  }
}
