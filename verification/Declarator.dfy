/** The C type printer (src/ctypes/ctypes_type_printing.ml:10-125), on tokens, against a
    parser for declarations by sections 6.7.2, 6.7.6 and 6.7.7 of ISO/IEC 9899:2011. */
module Declarator {
  import opened CtypesStatic

  // The words the names of the primitives are made of: keywords, and type names declared
  // by the C headers.
  datatype Word =
    | WChar | WSigned | WUnsigned | WShort | WInt | WLong | WFloat | WDouble | WComplex | WBool
    | WIntT(width: nat) | WUintT(width: nat) | WSizeT | WIntnat

  // Type names are single tokens: a C parser tells them from other identifiers by scope.
  datatype Token =
    | TVoid | TPrim(words: seq<Word>) | TNamed(s: string) | TTag(union: bool, tag: string)
    | TIdent(s: string) | TStar | TLParen | TRParen | TLBrack | TNum(n: nat) | TRBrack
    | TComma | TSemi | TLBrace | TRBrace

  type Tokens = seq<Token>

  // ---- The printer ----

  /** `Ctypes_primitives.name`: the words of a primitive's C name. */
  function CName(p: Prim): (words: seq<Word>)
    ensures words != []
  {
    match p
    case Char => [WChar]
    case Schar => [WSigned, WChar]
    case Uchar => [WUnsigned, WChar]
    case Bool => [WBool]
    case Short => [WShort]
    case Int => [WInt]
    case Long => [WLong]
    case Llong => [WLong, WLong]
    case Ushort => [WUnsigned, WShort]
    case Sint => [WInt]
    case Uint => [WUnsigned, WInt]
    case Ulong => [WUnsigned, WLong]
    case Ullong => [WUnsigned, WLong, WLong]
    case SizeT => [WSizeT]
    case Int8T => [WIntT(8)]
    case Int16T => [WIntT(16)]
    case Int32T => [WIntT(32)]
    case Int64T => [WIntT(64)]
    case Uint8T => [WUintT(8)]
    case Uint16T => [WUintT(16)]
    case Uint32T => [WUintT(32)]
    case Uint64T => [WUintT(64)]
    case Camlint => [WIntnat]
    case Nativeint => [WIntnat]
    case Float => [WFloat]
    case Double => [WDouble]
    case LDouble => [WLong, WDouble]
    case Complex32 => [WFloat, WComplex]
    case Complex64 => [WDouble, WComplex]
    case Complexld => [WLong, WDouble, WComplex]
  }

  datatype Ctx = TopLevel | InArray | NonArray

  // What is printed in the place of the declared name, by context.
  type Printer = Ctx -> Tokens

  function PtrPrinter(k: Printer): Printer {
    (c: Ctx) => if c.InArray? then [TLParen] + ([TStar] + k(NonArray)) + [TRParen] else [TStar] + k(NonArray)
  }

  function ArrayPrinter(k: Printer, n: nat): Printer { (c: Ctx) => k(InArray) + Bracketed(n) }

  function FnPrinter(inner: Tokens, params: Tokens): Printer { (c: Ctx) => inner + ([TLParen] + params + [TRParen]) }

  function Just(toks: Tokens): Printer { (c: Ctx) => toks }

  function Bracketed(n: nat): Tokens { [TLBrack, TNum(n), TRBrack] }

  function Dimensions(dims: seq<nat>): Tokens {
    if dims == [] then [] else Bracketed(dims[0]) + Dimensions(dims[1..])
  }

  function RefTarget(k: OCamlKind): Prim {
    match k case OString => Char case OBytes => Uchar case OFloatArray => Double
  }

  function MembersOf(t: Typ): seq<Field> {
    match t case Struct(_, _, fields) => fields case Union(_, _, ufields) => ufields case _ => []
  }

  // Whether a structure is printed with its members.
  predicate InFull(t: Typ, c: Ctx) {
    match t
    case Struct(tag, spec, _) => tag == "" || (spec.Some? && c.TopLevel?)
    case Union(tag, spec, _) => tag == "" || (spec.Some? && c.TopLevel?)
    case _ => false
  }

  /** `format_typ'`. */
  function FormatTyp(t: Typ, k: Printer, c: Ctx): Tokens
    decreases t, 1
  {
    match t
    case Void => [TVoid] + k(NonArray)
    case Primitive(p) => [TPrim(CName(p))] + k(NonArray)
    case View(view, ty) => if view.typedef.Some? then [TNamed(view.typedef.value)] + k(NonArray) else FormatTyp(ty, k, c)
    case Abstract(name, _, _) => [TNamed(name)] + k(NonArray)
    case Struct(tag, _, _) =>
      [TTag(false, tag)] + (if InFull(t, c) then [TLBrace] + FormatFields(t, 0) + [TRBrace] else []) + k(NonArray)
    case Union(tag, _, _) =>
      [TTag(true, tag)] + (if InFull(t, c) then [TLBrace] + FormatFields(t, 0) + [TRBrace] else []) + k(NonArray)
    case Pointer(ty) => FormatTyp(ty, PtrPrinter(k), NonArray)
    case Funptr(fn) => FormatFn(fn, [TLParen] + ([TStar] + k(NonArray)) + [TRParen])
    case Array(ty, n) => FormatTyp(ty, ArrayPrinter(k, n), NonArray)
    case Bigarray(p, dims) => [TPrim(CName(p))] + (k(InArray) + Dimensions(dims))
    case OCaml(kind) => [TPrim(CName(RefTarget(kind)))] + PtrPrinter(k)(NonArray)
  }

  /** `format_fields`, from the i-th on. */
  function FormatFields(t: Typ, i: nat): Tokens
    decreases t, 0, |MembersOf(t)| - i
  {
    var fields := MembersOf(t);
    if i >= |fields| then []
    else FormatTyp(fields[i].ftype, Just([TIdent(fields[i].fname)]), NonArray) + [TSemi] + FormatFields(t, i + 1)
  }

  /** `format_fn'`: `gather` leaves out parameters of type void. */
  function FormatFn(fn: Fn, inner: Tokens): Tokens
    decreases fn, 2
  {
    var ps := FormatParams(fn, true);
    FormatResult(fn, FnPrinter(inner, if ps == [] then [TVoid] else ps))
  }

  function FormatResult(fn: Fn, k: Printer): Tokens
    decreases fn, 0
  {
    match fn
    case Returns(t) => FormatTyp(t, k, NonArray)
    case Function(_, rest) => FormatResult(rest, k)
  }

  function FormatParams(fn: Fn, first: bool): Tokens
    decreases fn, 0
  {
    match fn
    case Returns(_) => []
    case Function(Void, rest) => FormatParams(rest, first)
    case Function(p, rest) =>
      (if first then [] else [TComma]) + (FormatTyp(p, Just([]), NonArray) + FormatParams(rest, false))
  }

  function NameTokens(name: Option<string>): Tokens {
    match name case None => [] case Some(s) => [TIdent(s)]
  }

  /** `format_typ` and `format_fn`. */
  function Format(t: Typ, name: Option<string>): Tokens { FormatTyp(t, Just(NameTokens(name)), TopLevel) }

  function FormatFunction(fn: Fn, name: Option<string>): Tokens { FormatFn(fn, NameTokens(name)) }

  // ---- C types and the parser ----

  // The arithmetic types of C (6.2.5), with those the headers declare.
  datatype Rank = CharRank | ShortRank | IntRank | LongRank | LongLongRank

  datatype Precision = SinglePrecision | DoublePrecision | ExtendedPrecision

  datatype Arith =
    | PlainChar | TruthValue | Integer(signed: bool, rank: Rank) | Exact(signed: bool, width: nat)
    | SizeInteger | WordInteger | Real(precision: Precision) | Complex(precision: Precision)

  /** Reading type specifiers (6.7.2, paragraph 2): a sign first, then what it is a sign of. */
  function Reading(words: seq<Word>): Option<Arith> {
    if words == [] then None
    else match words[0]
      case WSigned => ReadRank(words[1..], true)
      case WUnsigned => ReadRank(words[1..], false)
      case WChar => if |words| == 1 then Some(PlainChar) else None
      case WBool => if |words| == 1 then Some(TruthValue) else None
      case WSizeT => if |words| == 1 then Some(SizeInteger) else None
      case WIntnat => if |words| == 1 then Some(WordInteger) else None
      case WIntT(n) => if |words| == 1 then Some(Exact(true, n)) else None
      case WUintT(n) => if |words| == 1 then Some(Exact(false, n)) else None
      case WFloat => ReadComplex(words[1..], SinglePrecision)
      case WDouble => ReadComplex(words[1..], DoublePrecision)
      case WLong => if |words| > 1 && words[1] == WDouble then ReadComplex(words[2..], ExtendedPrecision) else ReadRank(words, true)
      case _ => ReadRank(words, true)
  }

  function ReadRank(words: seq<Word>, signed: bool): Option<Arith> {
    if |words| == 0 then Some(Integer(signed, IntRank))
    else if |words| == 1 then
      match words[0]
      case WChar => Some(Integer(signed, CharRank))
      case WShort => Some(Integer(signed, ShortRank))
      case WInt => Some(Integer(signed, IntRank))
      case WLong => Some(Integer(signed, LongRank))
      case _ => None
    else if |words| == 2 && words[0] == WLong && words[1] == WLong then Some(Integer(signed, LongLongRank))
    else if words[|words| - 1] == WInt && !words[0].WChar? && !words[0].WInt? then ReadRank(words[..|words| - 1], signed)
    else None
  }

  function ReadComplex(words: seq<Word>, precision: Precision): Option<Arith> {
    if words == [] then Some(Real(precision))
    else if |words| == 1 && words[0].WComplex? then Some(Complex(precision))
    else None
  }

  datatype CType =
    | CVoid | CPrim(a: Arith) | CNamed(s: string)
    | CTag(union: bool, tag: string, members: Option<seq<Member>>)
    | CPtr(to: CType) | CArr(of: CType, n: nat) | CFun(ret: CType, params: seq<CType>)

  datatype Member = Member(name: string, ty: CType)

  // A declarator read from the name outwards.
  datatype Deriv = DPtr | DArr(n: nat) | DFun(params: seq<CType>)

  function Build(ds: seq<Deriv>, b: CType): CType {
    if ds == [] then b
    else match ds[0]
      case DPtr => CPtr(Build(ds[1..], b))
      case DArr(n) => CArr(Build(ds[1..], b), n)
      case DFun(ps) => CFun(Build(ds[1..], b), ps)
  }

  // "(void)" declares no parameters (6.7.6.3, paragraph 10).
  function VoidIsNone(ps: seq<CType>): seq<CType> { if ps == [CVoid] then [] else ps }

  datatype Declared = Declared(name: Option<string>, ds: seq<Deriv>)

  /** Specifiers: a type name, or a tag with an optional member list. */
  function ParseSpec(toks: Tokens): (r: Option<(CType, Tokens)>)
    ensures r.Some? ==> |r.value.1| < |toks|
    decreases |toks|, 0
  {
    if toks == [] then None
    else match toks[0]
      case TVoid => Some((CVoid, toks[1..]))
      case TPrim(words) => (match Reading(words) case None => None case Some(a) => Some((CPrim(a), toks[1..])))
      case TNamed(s) => Some((CNamed(s), toks[1..]))
      case TTag(u, tag) =>
        if |toks| > 1 && toks[1] == TLBrace then
          (match ParseMembers(toks[2..])
           case None => None
           case Some((ms, rest)) => Some((CTag(u, tag, Some(ms)), rest)))
        else Some((CTag(u, tag, None), toks[1..]))
      case _ => None
  }

  function ParseMembers(toks: Tokens): (r: Option<(seq<Member>, Tokens)>)
    ensures r.Some? ==> |r.value.1| < |toks|
    decreases |toks|, 1
  {
    if toks == [] then None
    else if toks[0] == TRBrace then Some(([], toks[1..]))
    else match ParseSpec(toks)
      case None => None
      case Some((b, rest)) =>
        match ParseDecl(rest)
        case None => None
        case Some((d, rest2)) =>
          if d.name.None? || rest2 == [] || rest2[0] != TSemi then None
          else match ParseMembers(rest2[1..])
            case None => None
            case Some((ms, rest3)) => Some(([Member(d.name.value, Build(d.ds, b))] + ms, rest3))
  }

  /** A possibly abstract declarator: pointers bind less tightly than what follows the name. */
  function ParseDecl(toks: Tokens): (r: Option<(Declared, Tokens)>)
    ensures r.Some? ==> |r.value.1| <= |toks|
    decreases |toks|, 2
  {
    if toks != [] && toks[0] == TStar then
      match ParseDecl(toks[1..])
      case None => None
      case Some((d, rest)) => Some((Declared(d.name, d.ds + [DPtr]), rest))
    else ParseDirect(toks)
  }

  // An opening parenthesis groups unless parameters follow it.
  predicate Groups(toks: Tokens) {
    |toks| > 1 && toks[0] == TLParen && (toks[1] == TStar || toks[1] == TLParen || toks[1] == TLBrack || toks[1].TIdent?)
  }

  function ParseDirect(toks: Tokens): (r: Option<(Declared, Tokens)>)
    ensures r.Some? ==> |r.value.1| <= |toks|
    decreases |toks|, 1
  {
    if toks != [] && toks[0].TIdent? then ParseSuffixes(Declared(Some(toks[0].s), []), toks[1..])
    else if Groups(toks) then
      match ParseDecl(toks[1..])
      case None => None
      case Some((d, rest)) => if rest != [] && rest[0] == TRParen then ParseSuffixes(d, rest[1..]) else None
    else ParseSuffixes(Declared(None, []), toks)
  }

  function ParseSuffixes(d: Declared, toks: Tokens): (r: Option<(Declared, Tokens)>)
    ensures r.Some? ==> |r.value.1| <= |toks|
    decreases |toks|, 0
  {
    if |toks| >= 3 && toks[0] == TLBrack && toks[1].TNum? && toks[2] == TRBrack then
      ParseSuffixes(Declared(d.name, d.ds + [DArr(toks[1].n)]), toks[3..])
    else if toks != [] && toks[0] == TLParen then
      match ParseParams(toks[1..])
      case None => None
      case Some((ps, rest)) => ParseSuffixes(Declared(d.name, d.ds + [DFun(VoidIsNone(ps))]), rest)
    else Some((d, toks))
  }

  function ParseParams(toks: Tokens): (r: Option<(seq<CType>, Tokens)>)
    ensures r.Some? ==> |r.value.1| < |toks|
    decreases |toks|, 1
  {
    match ParseSpec(toks)
    case None => None
    case Some((b, rest)) =>
      match ParseDecl(rest)
      case None => None
      case Some((d, rest2)) =>
        if rest2 == [] then None
        else if rest2[0] == TRParen then Some(([Build(d.ds, b)], rest2[1..]))
        else if rest2[0] != TComma then None
        else match ParseParams(rest2[1..])
          case None => None
          case Some((ps, rest3)) => Some(([Build(d.ds, b)] + ps, rest3))
  }

  /** A whole declaration or type name. */
  function Parse(toks: Tokens): Option<(Option<string>, CType)> {
    match ParseSpec(toks)
    case None => None
    case Some((b, rest)) =>
      match ParseDecl(rest)
      case None => None
      case Some((d, rest2)) => if rest2 == [] then Some((d.name, Build(d.ds, b))) else None
  }

  // ---- What a printed type parses to ----

  /** The C type each primitive is documented to represent (src/ctypes/ctypes_types.mli:58-171). */
  function ArithOf(p: Prim): Arith {
    match p
    case Char => PlainChar
    case Bool => TruthValue
    case Schar => Integer(true, CharRank)
    case Uchar => Integer(false, CharRank)
    case Short => Integer(true, ShortRank)
    case Ushort => Integer(false, ShortRank)
    case Int => Integer(true, IntRank)
    case Sint => Integer(true, IntRank)
    case Uint => Integer(false, IntRank)
    case Long => Integer(true, LongRank)
    case Ulong => Integer(false, LongRank)
    case Llong => Integer(true, LongLongRank)
    case Ullong => Integer(false, LongLongRank)
    case SizeT => SizeInteger
    case Int8T => Exact(true, 8)
    case Int16T => Exact(true, 16)
    case Int32T => Exact(true, 32)
    case Int64T => Exact(true, 64)
    case Uint8T => Exact(false, 8)
    case Uint16T => Exact(false, 16)
    case Uint32T => Exact(false, 32)
    case Uint64T => Exact(false, 64)
    case Camlint => WordInteger
    case Nativeint => WordInteger
    case Float => Real(SinglePrecision)
    case Double => Real(DoublePrecision)
    case LDouble => Real(ExtendedPrecision)
    case Complex32 => Complex(SinglePrecision)
    case Complex64 => Complex(DoublePrecision)
    case Complexld => Complex(ExtendedPrecision)
  }

  // A name is read as the type it names.
  lemma NameReads(p: Prim)
    ensures Reading(CName(p)) == Some(ArithOf(p))
  {
  }

  function Arrays(dims: seq<nat>): (r: seq<Deriv>)
    ensures |r| == |dims| && forall i :: 0 <= i < |dims| ==> r[i] == DArr(dims[i])
  {
    seq(|dims|, i requires 0 <= i < |dims| => DArr(dims[i]))
  }

  function Ders(t: Typ): seq<Deriv>
    decreases t, 1
  {
    match t
    case View(view, ty) => if view.typedef.Some? then [] else Ders(ty)
    case Pointer(ty) => [DPtr] + Ders(ty)
    case Funptr(fn) => [DPtr] + FnDers(fn)
    case Array(ty, n) => [DArr(n)] + Ders(ty)
    case Bigarray(_, dims) => Arrays(dims)
    case OCaml(_) => [DPtr]
    case _ => []
  }

  function FnDers(fn: Fn): seq<Deriv>
    decreases fn, 1
  {
    [DFun(VoidIsNone(ParsedParams(fn)))] + ResultDers(fn)
  }

  function ResultDers(fn: Fn): seq<Deriv>
    decreases fn, 0
  {
    match fn case Returns(t) => Ders(t) case Function(_, rest) => ResultDers(rest)
  }

  function ResultBase(fn: Fn): CType
    decreases fn, 0
  {
    match fn case Returns(t) => BaseOf(t, NonArray) case Function(_, rest) => ResultBase(rest)
  }

  function ParsedParams(fn: Fn): seq<CType>
    decreases fn, 0
  {
    match fn
    case Returns(_) => []
    case Function(Void, rest) => ParsedParams(rest)
    case Function(p, rest) => [Build(Ders(p), BaseOf(p, NonArray))] + ParsedParams(rest)
  }

  function BaseOf(t: Typ, c: Ctx): CType
    decreases t, 1
  {
    match t
    case Void => CVoid
    case Primitive(p) => CPrim(ArithOf(p))
    case View(view, ty) => if view.typedef.Some? then CNamed(view.typedef.value) else BaseOf(ty, c)
    case Abstract(name, _, _) => CNamed(name)
    case Struct(tag, _, _) => CTag(false, tag, if InFull(t, c) then Some(ParsedMembers(t, 0)) else None)
    case Union(tag, _, _) => CTag(true, tag, if InFull(t, c) then Some(ParsedMembers(t, 0)) else None)
    case Pointer(ty) => BaseOf(ty, NonArray)
    case Funptr(fn) => ResultBase(fn)
    case Array(ty, _) => BaseOf(ty, NonArray)
    case Bigarray(p, _) => CPrim(ArithOf(p))
    case OCaml(kind) => CPrim(ArithOf(RefTarget(kind)))
  }

  function ParsedMembers(t: Typ, i: nat): seq<Member>
    decreases t, 0, |MembersOf(t)| - i
  {
    var fields := MembersOf(t);
    if i >= |fields| then []
    else [Member(fields[i].fname, Build(Ders(fields[i].ftype), BaseOf(fields[i].ftype, NonArray)))] + ParsedMembers(t, i + 1)
  }

  // ---- Token sequences that parse as expected ----

  // What may follow a declarator.
  predicate Follow(rest: Tokens) {
    rest == [] || rest[0] == TRParen || rest[0] == TComma || rest[0] == TSemi
  }

  // What may follow a direct declarator: that, a suffix with a number, or parameters.
  predicate SuffixFollows(rest: Tokens) {
    Follow(rest) || rest[0] == TLBrack || (rest[0] == TLParen && !Groups(rest))
  }

  ghost predicate IsDecl(toks: Tokens, d: Declared) {
    && (toks == [] || toks[0] != TLBrace)
    && forall rest: Tokens {:trigger ParseDecl(toks + rest)} :: Follow(rest) ==> ParseDecl(toks + rest) == Some((d, rest))
  }

  ghost predicate IsDirect(toks: Tokens, d: Declared) {
    && (toks == [] || (toks[0] != TStar && toks[0] != TLBrace))
    && forall rest: Tokens {:trigger ParseDirect(toks + rest)} ::
         SuffixFollows(rest) ==> ParseDirect(toks + rest) == ParseSuffixes(d, rest)
  }

  ghost predicate IsSpec(toks: Tokens, b: CType) {
    forall rest: Tokens {:trigger ParseSpec(toks + rest)} ::
      (rest == [] || rest[0] != TLBrace) ==> ParseSpec(toks + rest) == Some((b, rest))
  }

  ghost predicate IsParams(toks: Tokens, ps: seq<CType>) {
    && toks != [] && (toks[0].TVoid? || toks[0].TPrim? || toks[0].TNamed? || toks[0].TTag?)
    && forall rest: Tokens {:trigger ParseParams(toks + ([TRParen] + rest))} ::
         ParseParams(toks + ([TRParen] + rest)) == Some((ps, rest))
  }

  // A printer is good for a declarator in each of its contexts.
  ghost predicate Good(k: Printer, d: Declared) {
    IsDecl(k(NonArray), d) && IsDirect(k(InArray), d)
  }

  lemma NameIsDirect(name: Option<string>)
    ensures IsDirect(NameTokens(name), Declared(name, []))
  {
    forall rest: Tokens | SuffixFollows(rest)
      ensures ParseDirect(NameTokens(name) + rest) == ParseSuffixes(Declared(name, []), rest)
    {
      if name.Some? {
        assert (NameTokens(name) + rest)[1..] == rest;
      } else {
        assert NameTokens(name) + rest == rest;
      }
    }
  }

  lemma DirectIsDecl(toks: Tokens, d: Declared)
    requires IsDirect(toks, d)
    ensures IsDecl(toks, d)
  {
    forall rest: Tokens | Follow(rest) ensures ParseDecl(toks + rest) == Some((d, rest)) {
      assert ParseDirect(toks + rest) == ParseSuffixes(d, rest);
    }
  }

  lemma ArraySuffix(toks: Tokens, d: Declared, n: nat)
    requires IsDirect(toks, d)
    ensures IsDirect(toks + Bracketed(n), Declared(d.name, d.ds + [DArr(n)]))
  {
    forall rest: Tokens | SuffixFollows(rest)
      ensures ParseDirect(toks + Bracketed(n) + rest) == ParseSuffixes(Declared(d.name, d.ds + [DArr(n)]), rest)
    {
      assert toks + Bracketed(n) + rest == toks + (Bracketed(n) + rest);
      assert ParseDirect(toks + (Bracketed(n) + rest)) == ParseSuffixes(d, Bracketed(n) + rest);
      assert (Bracketed(n) + rest)[3..] == rest;
    }
  }

  lemma FunctionSuffix(toks: Tokens, d: Declared, params: Tokens, ps: seq<CType>)
    requires IsDirect(toks, d) && IsParams(params, ps)
    ensures IsDirect(toks + ([TLParen] + params + [TRParen]), Declared(d.name, d.ds + [DFun(VoidIsNone(ps))]))
  {
    var sfx := [TLParen] + params + [TRParen];
    var d2 := Declared(d.name, d.ds + [DFun(VoidIsNone(ps))]);
    forall rest: Tokens | SuffixFollows(rest) ensures ParseDirect(toks + sfx + rest) == ParseSuffixes(d2, rest) {
      hide ParseDirect;
      hide IsParams;
      assert toks + sfx + rest == toks + (sfx + rest);
      SuffixParses(d, params, ps, rest);
      hide SuffixFollows;
      assert ParseDirect(toks + (sfx + rest)) == ParseSuffixes(d, sfx + rest);
    }
  }

  lemma SuffixParses(d: Declared, params: Tokens, ps: seq<CType>, rest: Tokens)
    requires IsParams(params, ps)
    ensures SuffixFollows([TLParen] + params + [TRParen] + rest)
    ensures ParseSuffixes(d, [TLParen] + params + [TRParen] + rest) ==
            ParseSuffixes(Declared(d.name, d.ds + [DFun(VoidIsNone(ps))]), rest)
  {
    hide ParseParams;
    var all := [TLParen] + params + [TRParen] + rest;
    assert all[1] == params[0];
    assert all[1..] == params + ([TRParen] + rest);
  }

  lemma PointerDecl(toks: Tokens, d: Declared)
    requires IsDecl(toks, d)
    ensures IsDecl([TStar] + toks, Declared(d.name, d.ds + [DPtr]))
  {
    forall rest: Tokens | Follow(rest)
      ensures ParseDecl([TStar] + toks + rest) == Some((Declared(d.name, d.ds + [DPtr]), rest))
    {
      assert ([TStar] + toks + rest)[1..] == toks + rest;
    }
  }

  // A parenthesised pointer is a direct declarator.
  lemma {:induction false} Parenthesised(toks: Tokens, d: Declared)
    requires IsDecl(toks, d) && toks != [] && toks[0] == TStar
    ensures IsDirect([TLParen] + toks + [TRParen], d)
  {
    var all := [TLParen] + toks + [TRParen];
    forall rest: Tokens | SuffixFollows(rest) ensures ParseDirect(all + rest) == ParseSuffixes(d, rest) {
      assert (all + rest)[1..] == toks + ([TRParen] + rest);
      assert (all + rest)[1] == TStar;
      assert ParseDecl(toks + ([TRParen] + rest)) == Some((d, [TRParen] + rest));
      assert ([TRParen] + rest)[1..] == rest;
    }
  }

  lemma JustGood(toks: Tokens, d: Declared)
    requires IsDirect(toks, d)
    ensures Good(Just(toks), d)
  {
    DirectIsDecl(toks, d);
  }

  lemma PtrGood(k: Printer, d: Declared)
    requires Good(k, d)
    ensures Good(PtrPrinter(k), Declared(d.name, d.ds + [DPtr]))
    ensures IsDirect([TLParen] + ([TStar] + k(NonArray)) + [TRParen], Declared(d.name, d.ds + [DPtr]))
  {
    PointerDecl(k(NonArray), d);
    Parenthesised([TStar] + k(NonArray), Declared(d.name, d.ds + [DPtr]));
  }

  lemma ArrayGood(k: Printer, d: Declared, n: nat)
    requires Good(k, d)
    ensures Good(ArrayPrinter(k, n), Declared(d.name, d.ds + [DArr(n)]))
  {
    ArraySuffix(k(InArray), d, n);
    DirectIsDecl(k(InArray) + Bracketed(n), Declared(d.name, d.ds + [DArr(n)]));
  }

  lemma FnGood(inner: Tokens, d: Declared, params: Tokens, ps: seq<CType>)
    requires IsDirect(inner, d) && IsParams(params, ps)
    ensures Good(FnPrinter(inner, params), Declared(d.name, d.ds + [DFun(VoidIsNone(ps))]))
  {
    FunctionSuffix(inner, d, params, ps);
    DirectIsDecl(inner + ([TLParen] + params + [TRParen]), Declared(d.name, d.ds + [DFun(VoidIsNone(ps))]));
  }

  lemma {:induction false} DimensionsDirect(toks: Tokens, d: Declared, dims: seq<nat>)
    requires IsDirect(toks, d)
    ensures IsDirect(toks + Dimensions(dims), Declared(d.name, d.ds + Arrays(dims)))
    decreases |dims|
  {
    hide IsDirect;
    if dims == [] {
      assert toks + Dimensions(dims) == toks && d.ds + Arrays(dims) == d.ds;
    } else {
      ArraySuffix(toks, d, dims[0]);
      DimensionsDirect(toks + Bracketed(dims[0]), Declared(d.name, d.ds + [DArr(dims[0])]), dims[1..]);
      assert toks + Bracketed(dims[0]) + Dimensions(dims[1..]) == toks + Dimensions(dims);
      assert d.ds + [DArr(dims[0])] + Arrays(dims[1..]) == d.ds + Arrays(dims);
    }
  }

  // ---- The printer's output ----

  // A printed declaration: specifiers, then a declarator.
  ghost predicate Prints(toks: Tokens, spec: Tokens, b: CType, decl: Tokens, d: Declared) {
    toks == spec + decl && spec != [] && spec[0] != TRBrace && !spec[0].TStar? && IsSpec(spec, b) && IsDecl(decl, d)
    && (spec[0].TVoid? || spec[0].TPrim? || spec[0].TNamed? || spec[0].TTag?)
  }

  lemma AtomIsSpec(tok: Token, b: CType)
    requires (tok.TVoid? && b == CVoid) || (tok.TPrim? && b.CPrim? && Reading(tok.words) == Some(b.a)) || (tok.TNamed? && b == CNamed(tok.s))
    ensures IsSpec([tok], b)
  {
    forall rest: Tokens ensures ParseSpec([tok] + rest) == Some((b, rest)) { assert ([tok] + rest)[1..] == rest; }
  }

  lemma TagIsSpec(u: bool, tag: string)
    ensures IsSpec([TTag(u, tag)], CTag(u, tag, None))
  {
    forall rest: Tokens | rest == [] || rest[0] != TLBrace
      ensures ParseSpec([TTag(u, tag)] + rest) == Some((CTag(u, tag, None), rest))
    {
      assert ([TTag(u, tag)] + rest)[1..] == rest;
    }
  }

  ghost predicate IsMembers(toks: Tokens, ms: seq<Member>) {
    forall rest: Tokens {:trigger ParseMembers(toks + ([TRBrace] + rest))} ::
      ParseMembers(toks + ([TRBrace] + rest)) == Some((ms, rest))
  }

  lemma BodyIsSpec(u: bool, tag: string, body: Tokens, ms: seq<Member>)
    requires IsMembers(body, ms)
    ensures IsSpec([TTag(u, tag)] + ([TLBrace] + body + [TRBrace]), CTag(u, tag, Some(ms)))
  {
    var spec := [TTag(u, tag)] + ([TLBrace] + body + [TRBrace]);
    forall rest: Tokens ensures ParseSpec(spec + rest) == Some((CTag(u, tag, Some(ms)), rest)) {
      assert (spec + rest)[2..] == body + ([TRBrace] + rest);
      assert (spec + rest)[1] == TLBrace;
    }
  }

  // Specifiers and declarator in front of a token that may follow them.
  lemma SpecThenDecl(toks: Tokens, spec: Tokens, b: CType, decl: Tokens, d: Declared, rest: Tokens)
    requires Prints(toks, spec, b, decl, d) && Follow(rest)
    ensures ParseSpec(toks + rest) == Some((b, decl + rest)) && ParseDecl(decl + rest) == Some((d, rest))
    ensures (toks + rest) != [] && (toks + rest)[0] != TRBrace
  {
    assert toks + rest == spec + (decl + rest);
  }

  lemma OneMember(toks: Tokens, spec: Tokens, b: CType, decl: Tokens, d: Declared, more: Tokens, ms: seq<Member>)
    requires Prints(toks, spec, b, decl, d) && d.name.Some? && IsMembers(more, ms)
    ensures IsMembers(toks + [TSemi] + more, [Member(d.name.value, Build(d.ds, b))] + ms)
  {
    hide Build;
    forall rest: Tokens
      ensures ParseMembers(toks + [TSemi] + more + ([TRBrace] + rest)) == Some(([Member(d.name.value, Build(d.ds, b))] + ms, rest))
    {
      var tail := [TSemi] + (more + ([TRBrace] + rest));
      assert toks + [TSemi] + more + ([TRBrace] + rest) == toks + tail;
      SpecThenDecl(toks, spec, b, decl, d, tail);
      assert tail[1..] == more + ([TRBrace] + rest);
    }
  }

  lemma NoMembers()
    ensures IsMembers([], [])
  {
    forall rest: Tokens ensures ParseMembers([] + ([TRBrace] + rest)) == Some(([], rest)) {
      assert ([] + ([TRBrace] + rest))[1..] == rest;
    }
  }

  lemma LastParam(toks: Tokens, spec: Tokens, b: CType, decl: Tokens, d: Declared)
    requires Prints(toks, spec, b, decl, d)
    ensures IsParams(toks, [Build(d.ds, b)])
  {
    hide Build;
    forall rest: Tokens ensures ParseParams(toks + ([TRParen] + rest)) == Some(([Build(d.ds, b)], rest)) {
      SpecThenDecl(toks, spec, b, decl, d, [TRParen] + rest);
      assert ([TRParen] + rest)[1..] == rest;
    }
  }

  lemma OneParam(toks: Tokens, spec: Tokens, b: CType, decl: Tokens, d: Declared, more: Tokens, ps: seq<CType>)
    requires Prints(toks, spec, b, decl, d) && IsParams(more, ps)
    ensures IsParams(toks + ([TComma] + more), [Build(d.ds, b)] + ps)
  {
    hide Build;
    forall rest: Tokens
      ensures ParseParams(toks + ([TComma] + more) + ([TRParen] + rest)) == Some(([Build(d.ds, b)] + ps, rest))
    {
      var tail := [TComma] + (more + ([TRParen] + rest));
      assert toks + ([TComma] + more) + ([TRParen] + rest) == toks + tail;
      SpecThenDecl(toks, spec, b, decl, d, tail);
      assert tail[1..] == more + ([TRParen] + rest);
    }
  }

  lemma {:induction false} NoParamsPrinted(fn: Fn)
    ensures ParsedParams(fn) == [] ==> FormatParams(fn, true) == [] && FormatParams(fn, false) == []
    ensures ParsedParams(fn) != [] ==> FormatParams(fn, false) == [TComma] + FormatParams(fn, true)
    decreases fn
  {
    match fn
    case Returns(_) =>
    case Function(_, rest) => NoParamsPrinted(rest);
  }

  /** Every printed type is specifiers and a declarator that parse to the type's base
      and derivations, around whatever stands in the place of the name. */
  lemma {:induction false} FormatMeaning(t: Typ, k: Printer, c: Ctx, d: Declared) returns (spec: Tokens, decl: Tokens)
    requires Good(k, d)
    ensures Prints(FormatTyp(t, k, c), spec, BaseOf(t, c), decl, Declared(d.name, d.ds + Ders(t)))
    decreases t, 1
  {
    hide Good;
    hide IsDirect;
    hide Prints;
    match t
    case View(view, ty) =>
      if view.typedef.Some? { spec, decl := FlatMeaning(t, k, c, d); } else { spec, decl := FormatMeaning(ty, k, c, d); }
    case Struct(tag, _, _) => spec, decl := StructureMeaning(t, false, tag, k, c, d);
    case Union(tag, _, _) => spec, decl := StructureMeaning(t, true, tag, k, c, d);
    case Pointer(ty) =>
      PtrGood(k, d);
      spec, decl := FormatMeaning(ty, PtrPrinter(k), NonArray, Declared(d.name, d.ds + [DPtr]));
      Inner(d, DPtr, Ders(ty));
    case Funptr(fn) =>
      PtrGood(k, d);
      spec, decl := FunctionMeaning(fn, [TLParen] + ([TStar] + k(NonArray)) + [TRParen], Declared(d.name, d.ds + [DPtr]));
      Inner(d, DPtr, FnDers(fn));
    case Array(ty, n) =>
      ArrayGood(k, d, n);
      spec, decl := FormatMeaning(ty, ArrayPrinter(k, n), NonArray, Declared(d.name, d.ds + [DArr(n)]));
      Inner(d, DArr(n), Ders(ty));
    case _ => spec, decl := FlatMeaning(t, k, c, d);
  }

  lemma Inner(d: Declared, one: Deriv, more: seq<Deriv>)
    ensures d.ds + [one] + more == d.ds + ([one] + more)
  {
  }

  // Types without another type inside.
  lemma FlatMeaning(t: Typ, k: Printer, c: Ctx, d: Declared) returns (spec: Tokens, decl: Tokens)
    requires Good(k, d)
    requires !t.Struct? && !t.Union? && !t.Pointer? && !t.Funptr? && !t.Array? && (t.View? ==> t.view.typedef.Some?)
    ensures Prints(FormatTyp(t, k, c), spec, BaseOf(t, c), decl, Declared(d.name, d.ds + Ders(t)))
  {
    hide Good;
    hide IsDirect;
    hide Prints;
    hide Reading;
    hide CName;
    hide ArithOf;
    match t
    case Void => spec, decl := Atom(TVoid, CVoid, k, d);
    case Primitive(p) => spec, decl := PrimAtom(p, k, d);
    case Abstract(name, _, _) => spec, decl := Atom(TNamed(name), CNamed(name), k, d);
    case View(view, _) => spec, decl := Atom(TNamed(view.typedef.value), CNamed(view.typedef.value), k, d);
    case Bigarray(p, dims) => spec, decl := BigarrayMeaning(p, dims, k, d);
    case OCaml(kind) =>
      PtrGood(k, d);
      spec, decl := PrimAtom(RefTarget(kind), PtrPrinter(k), Declared(d.name, d.ds + [DPtr]));
      assert d.ds + [DPtr] + [] == d.ds + Ders(t);
  }

  lemma BigarrayMeaning(p: Prim, dims: seq<nat>, k: Printer, d: Declared) returns (spec: Tokens, decl: Tokens)
    requires Good(k, d)
    ensures Prints([TPrim(CName(p))] + (k(InArray) + Dimensions(dims)), spec, CPrim(ArithOf(p)), decl,
              Declared(d.name, d.ds + Arrays(dims)))
  {
    hide IsDirect;
    hide Reading;
    hide CName;
    hide ArithOf;
    NameReads(p);
    DimensionsDirect(k(InArray), d, dims);
    DirectIsDecl(k(InArray) + Dimensions(dims), Declared(d.name, d.ds + Arrays(dims)));
    AtomIsSpec(TPrim(CName(p)), CPrim(ArithOf(p)));
    spec, decl := [TPrim(CName(p))], k(InArray) + Dimensions(dims);
  }

  lemma PrimAtom(p: Prim, k: Printer, d: Declared) returns (spec: Tokens, decl: Tokens)
    requires Good(k, d)
    ensures Prints([TPrim(CName(p))] + k(NonArray), spec, CPrim(ArithOf(p)), decl, Declared(d.name, d.ds + []))
  {
    hide Reading;
    hide CName;
    hide ArithOf;
    NameReads(p);
    spec, decl := Atom(TPrim(CName(p)), CPrim(ArithOf(p)), k, d);
  }

  lemma Atom(tok: Token, b: CType, k: Printer, d: Declared) returns (spec: Tokens, decl: Tokens)
    requires Good(k, d)
    requires (tok.TVoid? && b == CVoid) || (tok.TPrim? && b.CPrim? && Reading(tok.words) == Some(b.a)) || (tok.TNamed? && b == CNamed(tok.s))
    ensures Prints([tok] + k(NonArray), spec, b, decl, Declared(d.name, d.ds + []))
  {
    AtomIsSpec(tok, b);
    assert d.ds + [] == d.ds;
    spec, decl := [tok], k(NonArray);
  }

  lemma {:induction false} StructureMeaning(t: Typ, u: bool, tag: string, k: Printer, c: Ctx, d: Declared)
      returns (spec: Tokens, decl: Tokens)
    requires Good(k, d) && ((t.Struct? && !u && tag == t.tag) || (t.Union? && u && tag == t.utag))
    ensures Prints(FormatTyp(t, k, c), spec, BaseOf(t, c), decl, Declared(d.name, d.ds + Ders(t)))
    decreases t, 0, |MembersOf(t)| + 1
  {
    assert d.ds + [] == d.ds;
    decl := k(NonArray);
    if InFull(t, c) {
      MembersMeaning(t, 0);
      BodyIsSpec(u, tag, FormatFields(t, 0), ParsedMembers(t, 0));
      spec := [TTag(u, tag)] + ([TLBrace] + FormatFields(t, 0) + [TRBrace]);
    } else {
      TagIsSpec(u, tag);
      spec := [TTag(u, tag)];
      assert [TTag(u, tag)] + [] + k(NonArray) == spec + decl;
    }
  }

  lemma {:induction false} MembersMeaning(t: Typ, i: nat)
    ensures IsMembers(FormatFields(t, i), ParsedMembers(t, i))
    decreases t, 0, |MembersOf(t)| - i
  {
    hide IsMembers;
    hide Prints;
    hide Good;
    hide IsDirect;
    if i >= |MembersOf(t)| { NoMembers(); } else {
      var f := MembersOf(t)[i];
      NameIsDirect(Some(f.fname));
      var d := Declared(Some(f.fname), []);
      JustGood([TIdent(f.fname)], d);
      var spec, decl := FormatMeaning(f.ftype, Just([TIdent(f.fname)]), NonArray, d);
      assert [] + Ders(f.ftype) == Ders(f.ftype);
      MembersMeaning(t, i + 1);
      OneMember(FormatTyp(f.ftype, Just([TIdent(f.fname)]), NonArray), spec, BaseOf(f.ftype, NonArray), decl,
        Declared(d.name, Ders(f.ftype)), FormatFields(t, i + 1), ParsedMembers(t, i + 1));
    }
  }

  lemma {:induction false} FunctionMeaning(fn: Fn, inner: Tokens, d: Declared) returns (spec: Tokens, decl: Tokens)
    requires IsDirect(inner, d)
    ensures Prints(FormatFn(fn, inner), spec, ResultBase(fn), decl, Declared(d.name, d.ds + FnDers(fn)))
    decreases fn, 2
  {
    hide IsDirect;
    hide IsParams;
    hide Prints;
    hide Good;
    NoParamsPrinted(fn);
    var ps := FormatParams(fn, true);
    var params := if ps == [] then [TVoid] else ps;
    var parsed := if ParsedParams(fn) == [] then [CVoid] else ParsedParams(fn);
    if ParsedParams(fn) == [] { VoidParams(); } else { ParamsMeaning(fn); }
    FnGood(inner, d, params, parsed);
    assert VoidIsNone(parsed) == VoidIsNone(ParsedParams(fn));
    spec, decl := ResultMeaning(fn, FnPrinter(inner, params), Declared(d.name, d.ds + [DFun(VoidIsNone(parsed))]));
    assert d.ds + [DFun(VoidIsNone(parsed))] + ResultDers(fn) == d.ds + FnDers(fn);
  }

  lemma VoidParams()
    ensures IsParams([TVoid], [CVoid])
  {
    NameIsDirect(None);
    JustGood([], Declared(None, []));
    var spec, decl := Atom(TVoid, CVoid, Just([]), Declared(None, []));
    LastParam([TVoid] + Just([])(NonArray), spec, CVoid, decl, Declared(None, [] + []));
    assert [TVoid] + Just([])(NonArray) == [TVoid];
  }

  lemma {:induction false} ResultMeaning(fn: Fn, k: Printer, d: Declared) returns (spec: Tokens, decl: Tokens)
    requires Good(k, d)
    ensures Prints(FormatResult(fn, k), spec, ResultBase(fn), decl, Declared(d.name, d.ds + ResultDers(fn)))
    decreases fn, 0
  {
    hide Prints;
    hide Good;
    match fn
    case Returns(t) => spec, decl := FormatMeaning(t, k, NonArray, d);
    case Function(_, rest) => spec, decl := ResultMeaning(rest, k, d);
  }

  lemma {:induction false} ParamsMeaning(fn: Fn)
    requires ParsedParams(fn) != []
    ensures FormatParams(fn, true) != [] && IsParams(FormatParams(fn, true), ParsedParams(fn))
    decreases fn, 0
  {
    hide Prints;
    hide Good;
    hide IsDirect;
    match fn
    case Function(p, rest) =>
      if p.Void? { ParamsMeaning(rest); } else {
        NameIsDirect(None);
        JustGood([], Declared(None, []));
        var toks := FormatTyp(p, Just([]), NonArray);
        var spec, decl := FormatMeaning(p, Just([]), NonArray, Declared(None, []));
        assert [] + Ders(p) == Ders(p);
        var d := Declared(None, Ders(p));
        NoParamsPrinted(rest);
        assert FormatParams(fn, true) == toks + FormatParams(rest, false);
        if ParsedParams(rest) == [] {
          LastParam(toks, spec, BaseOf(p, NonArray), decl, d);
          assert toks + [] == toks;
          assert [Build(Ders(p), BaseOf(p, NonArray))] + [] == [Build(Ders(p), BaseOf(p, NonArray))];
        } else {
          ParamsMeaning(rest);
          OneParam(toks, spec, BaseOf(p, NonArray), decl, d, FormatParams(rest, true), ParsedParams(rest));
        }
      }
  }

  // ---- Erasure: what the type is in C ----

  /** The C type a description stands for: views are erased to their printed name or
      their target, OCaml references are pointers, void parameters are dropped. */
  function Erase(t: Typ, c: Ctx): CType
    decreases t, 1
  {
    match t
    case Void => CVoid
    case Primitive(p) => CPrim(ArithOf(p))
    case View(view, ty) => if view.typedef.Some? then CNamed(view.typedef.value) else Erase(ty, c)
    case Abstract(name, _, _) => CNamed(name)
    case Struct("", _, _) => CTag(false, "", Some(EraseMembers(t, 0)))
    case Struct(tag, Some(_), _) => CTag(false, tag, if c.TopLevel? then Some(EraseMembers(t, 0)) else None)
    case Struct(tag, None, _) => CTag(false, tag, None)
    case Union("", _, _) => CTag(true, "", Some(EraseMembers(t, 0)))
    case Union(tag, Some(_), _) => CTag(true, tag, if c.TopLevel? then Some(EraseMembers(t, 0)) else None)
    case Union(tag, None, _) => CTag(true, tag, None)
    case Pointer(ty) => CPtr(Erase(ty, NonArray))
    case Funptr(fn) => CPtr(EraseFn(fn))
    case Array(ty, n) => CArr(Erase(ty, NonArray), n)
    case Bigarray(p, dims) => Build(Arrays(dims), CPrim(ArithOf(p)))
    case OCaml(OString) => CPtr(CPrim(PlainChar))
    case OCaml(OBytes) => CPtr(CPrim(Integer(false, CharRank)))
    case OCaml(OFloatArray) => CPtr(CPrim(Real(DoublePrecision)))
  }

  function EraseMembers(t: Typ, i: nat): seq<Member>
    decreases t, 0, |MembersOf(t)| - i
  {
    var fields := MembersOf(t);
    if i >= |fields| then [] else [Member(fields[i].fname, Erase(fields[i].ftype, NonArray))] + EraseMembers(t, i + 1)
  }

  function EraseFn(fn: Fn): CType
    decreases fn, 1
  {
    CFun(EraseResult(fn), EraseParams(fn))
  }

  function EraseResult(fn: Fn): CType
    decreases fn, 0
  {
    match fn case Returns(t) => Erase(t, NonArray) case Function(_, rest) => EraseResult(rest)
  }

  function EraseParams(fn: Fn): seq<CType>
    decreases fn, 0
  {
    match fn
    case Returns(_) => []
    case Function(Void, rest) => EraseParams(rest)
    case Function(p, rest) => [Erase(p, NonArray)] + EraseParams(rest)
  }

  /** Whether some function type inside has, as its only printed parameter, one that is
      void behind views without a name of their own: it is printed "(void)". */
  predicate LoneVoid(t: Typ, c: Ctx)
    decreases t, 1
  {
    match t
    case View(view, ty) => view.typedef.None? && LoneVoid(ty, c)
    case Struct(tag, spec, _) => (tag == "" || (c.TopLevel? && spec.Some?)) && LoneVoidMember(t, 0)
    case Union(tag, spec, _) => (tag == "" || (c.TopLevel? && spec.Some?)) && LoneVoidMember(t, 0)
    case Pointer(ty) => LoneVoid(ty, NonArray)
    case Funptr(fn) => LoneVoidFn(fn)
    case Array(ty, _) => LoneVoid(ty, NonArray)
    case _ => false
  }

  predicate LoneVoidMember(t: Typ, i: nat)
    decreases t, 0, |MembersOf(t)| - i
  {
    var fields := MembersOf(t);
    i < |fields| && (LoneVoid(fields[i].ftype, NonArray) || LoneVoidMember(t, i + 1))
  }

  predicate LoneVoidFn(fn: Fn)
    decreases fn, 1
  {
    EraseParams(fn) == [CVoid] || LoneVoidIn(fn)
  }

  // The same for the parameters and result of a function type.
  predicate LoneVoidIn(fn: Fn)
    decreases fn, 0
  {
    match fn
    case Returns(t) => LoneVoid(t, NonArray)
    case Function(p, rest) => LoneVoid(p, NonArray) || LoneVoidIn(rest)
  }

  // The type a printed declaration parses to.
  function Parsed(t: Typ, c: Ctx): CType { Build(Ders(t), BaseOf(t, c)) }

  function ParsedFn(fn: Fn): CType { Build(FnDers(fn), ResultBase(fn)) }

  lemma {:induction false} BuildAppend(ds: seq<Deriv>, more: seq<Deriv>, b: CType)
    ensures Build(ds + more, b) == Build(ds, Build(more, b))
    decreases |ds|
  {
    if ds == [] { assert ds + more == more; } else {
      assert (ds + more)[1..] == ds[1..] + more;
      BuildAppend(ds[1..], more, b);
    }
  }

  lemma BuildOne(d: Deriv, more: seq<Deriv>, b: CType)
    ensures Build([d] + more, b) == Build([d], Build(more, b))
  {
    BuildAppend([d], more, b);
  }

  /** Parsing what was printed gives back the type itself exactly when no function type
      inside is printed with a lone void parameter. */
  lemma {:induction false} ParsedIffNoLoneVoid(t: Typ, c: Ctx)
    ensures Parsed(t, c) == Erase(t, c) <==> !LoneVoid(t, c)
    decreases t, 1
  {
    match t
    case View(view, ty) => if view.typedef.None? { ParsedIffNoLoneVoid(ty, c); }
    case Struct(_, _, _) => if InFull(t, c) { MembersIffNoLoneVoid(t, 0); }
    case Union(_, _, _) => if InFull(t, c) { MembersIffNoLoneVoid(t, 0); }
    case Pointer(ty) => ParsedIffNoLoneVoid(ty, NonArray); BuildOne(DPtr, Ders(ty), BaseOf(ty, NonArray));
    case Array(ty, n) => ParsedIffNoLoneVoid(ty, NonArray); BuildOne(DArr(n), Ders(ty), BaseOf(ty, NonArray));
    case Funptr(fn) => ParsedFnIffNoLoneVoid(fn); BuildOne(DPtr, FnDers(fn), ResultBase(fn));
    case _ =>
  }

  lemma {:induction false} MembersIffNoLoneVoid(t: Typ, i: nat)
    ensures ParsedMembers(t, i) == EraseMembers(t, i) <==> !LoneVoidMember(t, i)
    decreases t, 0, |MembersOf(t)| - i
  {
    if i < |MembersOf(t)| {
      var f := MembersOf(t)[i];
      ParsedIffNoLoneVoid(f.ftype, NonArray);
      MembersIffNoLoneVoid(t, i + 1);
      FrontSame(Member(f.fname, Parsed(f.ftype, NonArray)), Member(f.fname, Erase(f.ftype, NonArray)),
        ParsedMembers(t, i + 1), EraseMembers(t, i + 1));
    }
  }

  lemma FrontSame<T>(a: T, b: T, s: seq<T>, u: seq<T>)
    ensures [a] + s == [b] + u <==> a == b && s == u
  {
    assert ([a] + s)[0] == a && ([b] + u)[0] == b;
    assert ([a] + s)[1..] == s && ([b] + u)[1..] == u;
  }

  lemma {:induction false} ParsedFnIffNoLoneVoid(fn: Fn)
    ensures ParsedFn(fn) == EraseFn(fn) <==> !LoneVoidFn(fn)
    decreases fn, 1
  {
    ParamsAndResult(fn);
    BuildOne(DFun(VoidIsNone(ParsedParams(fn))), ResultDers(fn), ResultBase(fn));
  }

  lemma {:induction false} ParamsAndResult(fn: Fn)
    ensures ParsedParams(fn) == EraseParams(fn) && Build(ResultDers(fn), ResultBase(fn)) == EraseResult(fn) <==> !LoneVoidIn(fn)
    ensures ParsedParams(fn) == [CVoid] <==> EraseParams(fn) == [CVoid]
    ensures ParsedParams(fn) == [] <==> EraseParams(fn) == []
    decreases fn, 0
  {
    match fn
    case Returns(t) => ParsedIffNoLoneVoid(t, NonArray);
    case Function(p, rest) =>
      ParamsAndResult(rest);
      ParsedIffNoLoneVoid(p, NonArray);
      if !p.Void? {
        VoidStays(p, NonArray);
        FrontSame(Parsed(p, NonArray), Erase(p, NonArray), ParsedParams(rest), EraseParams(rest));
      }
  }

  // Void is void on both sides.
  lemma {:induction false} VoidStays(t: Typ, c: Ctx)
    ensures Parsed(t, c) == CVoid <==> Erase(t, c) == CVoid
    decreases t
  {
    match t
    case View(view, ty) => if view.typedef.None? { VoidStays(ty, c); }
    case Pointer(ty) => BuildOne(DPtr, Ders(ty), BaseOf(ty, NonArray));
    case Array(ty, n) => BuildOne(DArr(n), Ders(ty), BaseOf(ty, NonArray));
    case Funptr(fn) => BuildOne(DPtr, FnDers(fn), ResultBase(fn));
    case _ =>
  }

  // What is printed, with nothing after it, is one declaration.
  lemma PrintedParses(toks: Tokens, spec: Tokens, b: CType, decl: Tokens, d: Declared)
    requires Prints(toks, spec, b, decl, d)
    ensures Parse(toks) == Some((d.name, Build(d.ds, b)))
  {
    hide Prints;
    assert toks + [] == toks && decl + [] == decl;
    SpecThenDecl(toks, spec, b, decl, d, []);
  }

  /** Declarator round trip: the tokens printed for any type, with or without a name,
      are one declaration of that name; it gives back the C type exactly when no
      function type inside is printed with a lone void parameter. */
  lemma TypeRoundTrip(t: Typ, name: Option<string>)
    ensures Parse(Format(t, name)) == Some((name, Parsed(t, TopLevel)))
    ensures Parse(Format(t, name)) == Some((name, Erase(t, TopLevel))) <==> !LoneVoid(t, TopLevel)
  {
    hide Erase;
    hide Good;
    hide IsDirect;
    hide Parse;
    hide Prints;
    NameIsDirect(name);
    JustGood(NameTokens(name), Declared(name, []));
    var spec, decl := FormatMeaning(t, Just(NameTokens(name)), TopLevel, Declared(name, []));
    assert [] + Ders(t) == Ders(t);
    PrintedParses(Format(t, name), spec, BaseOf(t, TopLevel), decl, Declared(name, Ders(t)));
    ParsedIffNoLoneVoid(t, TopLevel);
  }

  /** A primitive's declaration is read as the type it is documented to represent; two
      primitives have the same declarations exactly when they share their C name, as
      `int` and `sint` do, and the two integers of an OCaml word. */
  lemma PrimitiveComesBack(p: Prim, q: Prim, name: Option<string>)
    ensures Parse(Format(Primitive(p), name)) == Some((name, CPrim(ArithOf(p))))
    ensures Reading(CName(p)) == Some(ArithOf(p))
    ensures Format(Primitive(p), name) == Format(Primitive(q), name) <==> CName(p) == CName(q)
    ensures Parse(Format(Primitive(p), name)) == Parse(Format(Primitive(q), name)) <==> CName(p) == CName(q)
    ensures CName(p) == CName(q)
            <==> p == q || (p in {Int, Sint} && q in {Int, Sint}) || (p in {Camlint, Nativeint} && q in {Camlint, Nativeint})
  {
    hide Parse;
    PrimitiveParses(p, name);
    PrimitiveParses(q, name);
    NameReads(p);
    NameReads(q);
    FrontSame(TPrim(CName(p)), TPrim(CName(q)), NameTokens(name), NameTokens(name));
    SameNames(p, q);
  }

  lemma PrimitiveParses(p: Prim, name: Option<string>)
    ensures Format(Primitive(p), name) == [TPrim(CName(p))] + NameTokens(name)
    ensures Parse(Format(Primitive(p), name)) == Some((name, CPrim(ArithOf(p))))
  {
    hide Parse;
    hide CName;
    hide ArithOf;
    TypeRoundTrip(Primitive(p), name);
    assert Erase(Primitive(p), TopLevel) == CPrim(ArithOf(p)) && !LoneVoid(Primitive(p), TopLevel);
  }

  // Names differ because they are read as different types.
  lemma SameNames(p: Prim, q: Prim)
    ensures ArithOf(p) == ArithOf(q) <==> CName(p) == CName(q)
    ensures ArithOf(p) == ArithOf(q)
            <==> p == q || (p in {Int, Sint} && q in {Int, Sint}) || (p in {Camlint, Nativeint} && q in {Camlint, Nativeint})
  {
    NameReads(p);
    NameReads(q);
    SameTypes(p, q);
    hide ArithOf;
    hide Reading;
  }

  lemma SameTypes(p: Prim, q: Prim)
    ensures ArithOf(p) == ArithOf(q)
            <==> p == q || (p in {Int, Sint} && q in {Int, Sint}) || (p in {Camlint, Nativeint} && q in {Camlint, Nativeint})
  {
  }

  /** The members read back are the fields, in order and each with its own name and type. */
  lemma {:induction false} ErasedMembers(t: Typ, i: nat)
    requires t.Struct? || t.Union?
    requires i <= |if t.Struct? then t.fields else t.ufields|
    ensures var fields := if t.Struct? then t.fields else t.ufields;
            && |EraseMembers(t, i)| == |fields| - i
            && forall k :: 0 <= k < |fields| - i ==>
                 EraseMembers(t, i)[k] == Member(fields[i + k].fname, Erase(fields[i + k].ftype, NonArray))
    decreases |if t.Struct? then t.fields else t.ufields| - i
  {
    hide Erase;
    var fields := if t.Struct? then t.fields else t.ufields;
    if i < |fields| {
      ErasedMembers(t, i + 1);
      forall k | 0 <= k < |fields| - i
        ensures EraseMembers(t, i)[k] == Member(fields[i + k].fname, Erase(fields[i + k].ftype, NonArray))
      {
        if k > 0 { assert EraseMembers(t, i)[k] == EraseMembers(t, i + 1)[k - 1]; }
      }
    }
  }

  /** The same for function types. */
  lemma FunctionRoundTrip(fn: Fn, name: Option<string>)
    ensures Parse(FormatFunction(fn, name)) == Some((name, ParsedFn(fn)))
    ensures Parse(FormatFunction(fn, name)) == Some((name, EraseFn(fn))) <==> !LoneVoidFn(fn)
  {
    hide EraseFn;
    hide IsDirect;
    hide Parse;
    hide Prints;
    hide FormatFn;
    hide FnDers;
    hide ResultBase;
    NameIsDirect(name);
    var spec, decl := FunctionMeaning(fn, NameTokens(name), Declared(name, []));
    assert [] + FnDers(fn) == FnDers(fn);
    PrintedParses(FormatFunction(fn, name), spec, ResultBase(fn), decl, Declared(name, FnDers(fn)));
    ParsedFnIffNoLoneVoid(fn);
  }

  /** A type that does not come back: a function of one parameter, void behind a view,
      is printed like a function of none. */
  lemma LoneVoidExample(view: ViewInfo, name: Option<string>)
    requires view.typedef.None?
    ensures var fn := Function(View(view, Void), Returns(Void));
            && EraseFn(fn) == CFun(CVoid, [CVoid])
            && FormatFunction(fn, name) == FormatFunction(Returns(Void), name)
            && Parse(FormatFunction(fn, name)) == Some((name, CFun(CVoid, [])))
  {
    hide Parse;
    LoneVoidPrinting(view, NameTokens(name));
    FunctionRoundTrip(Returns(Void), name);
    var nothing := Returns(Void);
    assert EraseParams(nothing) == [] && EraseResult(nothing) == CVoid;
    assert LoneVoidIn(nothing) == false;
  }

  lemma LoneVoidPrinting(view: ViewInfo, inner: Tokens)
    requires view.typedef.None?
    ensures var fn := Function(View(view, Void), Returns(Void));
            && EraseFn(fn) == CFun(CVoid, [CVoid]) && FormatFn(fn, inner) == FormatFn(Returns(Void), inner)
  {
    var fn, nothing := Function(View(view, Void), Returns(Void)), Returns(Void);
    assert EraseParams(nothing) == [] && Erase(View(view, Void), NonArray) == CVoid;
    assert EraseParams(fn) == [CVoid] && EraseResult(fn) == CVoid;
    assert FormatTyp(View(view, Void), Just([]), NonArray) == [TVoid] + Just([])(NonArray);
    assert FormatParams(nothing, false) == [] && FormatParams(nothing, true) == [];
    assert FormatParams(fn, true) == [TVoid];
    assert FormatResult(fn, FnPrinter(inner, [TVoid])) == FormatResult(nothing, FnPrinter(inner, [TVoid]));
  }
}
