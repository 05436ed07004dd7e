/**
 * The eBPF target's extern handlers in the symbolic small-step evaluator.  Each handler
 * takes the execution state whose top command is the extern call and yields exactly one
 * successor: counters pop the call, `verify_ipv4_checksum` returns the symbolic verdict
 * of the IPv4 header checksum (section 3.1 of RFC 791, ones' complement sum of RFC 1071),
 * and `tcp_conntrack` returns `syn == 1 && ack == 0`.  A call that matches no eBPF extern
 * falls through to the target-independent handler, which is not part of this model.
 */
module EbpfExprStepper {
  import opened Wrappers
  import opened Bits
  import opened Ir
  import opened ExecutionStates
  import opened Concolic
  import opened SymbolicEnvironment

  /** The outcome of evaluating an extern call. */
  datatype StepResult =
    | Successors(states: seq<ExecutionState>)   // the states appended to the evaluator's result
    | Unimplemented(reason: string)             // TESTGEN_UNIMPLEMENTED
    | Bug(reason: string)                       // a failed BUG_CHECK or type check
    | Fallthrough                               // handled by the generic extern stepper

  // ---------------------------------------------------------------------------------
  // The IPv4 header
  // ---------------------------------------------------------------------------------

  /** The twelve fields of an IPv4 header, in header order (section 3.1 of RFC 791). */
  datatype Ipv4<T> = Ipv4(version: T, ihl: T, diffserv: T, totalLen: T, identification: T,
    flags: T, fragOffset: T, ttl: T, protocol: T, hdrChecksum: T, srcAddr: T, dstAddr: T)

  /** The field names the handler reads from the header reference. */
  const Ipv4FieldNames: Ipv4<string> := Ipv4("version", "ihl", "diffserv", "totalLen",
    "identification", "flags", "fragOffset", "ttl", "protocol", "hdrChecksum", "srcAddr", "dstAddr")

  /** A concrete header: one unsigned number per field. */
  type Ipv4Header = Ipv4<nat>

  /** Every field fits its width: 4, 4, 8, 16, 16, 3, 13, 8, 8, 16, 32 and 32 bits. */
  predicate ValidHeader(h: Ipv4Header) {
    && h.version < 0x10 && h.ihl < 0x10 && h.diffserv < 0x100
    && h.totalLen < 0x1_0000 && h.identification < 0x1_0000
    && h.flags < 0x8 && h.fragOffset < 0x2000 && h.ttl < 0x100 && h.protocol < 0x100
    && h.hdrChecksum < 0x1_0000 && h.srcAddr < 0x1_0000_0000 && h.dstAddr < 0x1_0000_0000
  }

  /** The ten 16-bit words the header is summed as. */
  function HeaderWords(h: Ipv4Header): (r: seq<nat>)
    ensures |r| == 10
  {
    [h.version * 0x1000 + h.ihl * 0x100 + h.diffserv,
     h.totalLen,
     h.identification,
     h.flags * 0x2000 + h.fragOffset,
     h.ttl * 0x100 + h.protocol,
     h.hdrChecksum,
     h.srcAddr / 0x1_0000, h.srcAddr % 0x1_0000,
     h.dstAddr / 0x1_0000, h.dstAddr % 0x1_0000]
  }

  /** Plain sum of the words. */
  function WordSum(ws: seq<nat>): nat {
    if ws == [] then 0 else WordSum(ws[..|ws| - 1]) + ws[|ws| - 1]
  }

  /** The verdict the handler's expression computes: the sum, one fold of its high half
      into its low half in 16 bits, the 16-bit complement, compared with zero. */
  function ChecksumVerdict(h: Ipv4Header): bool {
    FoldVerdict(WordSum(HeaderWords(h)))
  }

  /** The verdict on a 32-bit sum `s`. */
  function FoldVerdict(s: nat): bool {
    var folded := (s / 0x1_0000 + s % 0x1_0000) % 0x1_0000;
    0xFFFF - folded == 0
  }

  /** Ones' complement addition of two 16-bit quantities: the carry out of bit 15 is
      added back in (end-around carry). */
  function OnesAdd(a: nat, b: nat): nat {
    if a + b >= 0x1_0000 then a + b - 0xFFFF else a + b
  }

  /** The ones' complement sum of section 1 of RFC 1071. */
  function OnesComplementSum(ws: seq<nat>): nat {
    if ws == [] then 0 else OnesAdd(OnesComplementSum(ws[..|ws| - 1]), ws[|ws| - 1])
  }

  /** The check of section 3.1 of RFC 791: a header is intact when the ones' complement
      sum of all its words, checksum included, is all ones. */
  predicate HeaderChecksumCorrect(h: Ipv4Header) {
    OnesComplementSum(HeaderWords(h)) == 0xFFFF
  }

  // ---------------------------------------------------------------------------------
  // Arithmetic facts
  // ---------------------------------------------------------------------------------

  lemma {:induction false} Pow2Add(x: nat, y: nat)
    ensures Pow2(x + y) == Pow2(x) * Pow2(y)
  {
    if x > 0 {
      Pow2Add(x - 1, y);
    }
  }

  lemma {:induction false} Pow2Values()
    ensures Pow2(0) == 1 && Pow2(3) == 8 && Pow2(4) == 16 && Pow2(8) == 256 && Pow2(13) == 8192
    ensures Pow2(16) == 0x1_0000 && Pow2(32) == 0x1_0000_0000
  {
    assert Pow2(16) == 0x1_0000;
    Pow2Add(16, 16);
  }

  lemma {:induction false} HeaderWordsBounded(h: Ipv4Header)
    requires ValidHeader(h)
    ensures forall i :: 0 <= i < 10 ==> HeaderWords(h)[i] < 0x1_0000
  {
  }

  /** A sum of 16-bit words never exceeds the count times 0xFFFF. */
  lemma {:induction false} WordSumBound(ws: seq<nat>)
    requires forall i :: 0 <= i < |ws| ==> ws[i] < 0x1_0000
    ensures WordSum(ws) <= |ws| * 0xFFFF
  {
    if ws != [] {
      WordSumBound(ws[..|ws| - 1]);
    }
  }

  /** Widening to 32 bits is enough: the sum of the ten header words never overflows. */
  lemma {:induction false} ChecksumSumFits(h: Ipv4Header)
    requires ValidHeader(h)
    ensures WordSum(HeaderWords(h)) <= 10 * 0xFFFF < 0x1_0000_0000
  {
    HeaderWordsBounded(h);
    WordSumBound(HeaderWords(h));
  }

  /** The ones' complement sum stays a 16-bit quantity, is zero only for an all-zero sum,
      and agrees with the plain sum modulo 0xFFFF. */
  lemma {:induction false} OnesComplementSumMod(ws: seq<nat>)
    requires forall i :: 0 <= i < |ws| ==> ws[i] < 0x1_0000
    ensures OnesComplementSum(ws) <= 0xFFFF
    ensures OnesComplementSum(ws) % 0xFFFF == WordSum(ws) % 0xFFFF
    ensures OnesComplementSum(ws) == 0 <==> WordSum(ws) == 0
  {
    if ws != [] {
      OnesComplementSumMod(ws[..|ws| - 1]);
    }
  }

  /** For a sum of at most ten 16-bit words, one 16-bit fold of the high half into the low
      half lands on 0xFFFF exactly when the sum is a non-zero multiple of 0xFFFF. */
  lemma {:induction false} SingleFold(s: nat)
    requires s <= 10 * 0xFFFF
    ensures (s / 0x1_0000 + s % 0x1_0000) % 0x1_0000 == 0xFFFF <==> s != 0 && s % 0xFFFF == 0
  {
    var q, r := s / 0x1_0000, s % 0x1_0000;
    assert s == 0xFFFF * q + (q + r);
    assert q <= 9;
    if q == 0 {
    } else if q == 1 {
    } else if q == 2 {
    } else if q == 3 {
    } else if q == 4 {
    } else if q == 5 {
    } else if q == 6 {
    } else if q == 7 {
    } else if q == 8 {
    } else {
    }
  }

  /** The single fold the handler performs is the RFC 1071 check for an IPv4 header:
      the verdict is true exactly when the ones' complement sum is all ones. */
  lemma {:induction false} ChecksumVerdictIsOnesComplementCheck(h: Ipv4Header)
    requires ValidHeader(h)
    ensures ChecksumVerdict(h) <==> HeaderChecksumCorrect(h)
  {
    var ws := HeaderWords(h);
    HeaderWordsBounded(h);
    ChecksumSumFits(h);
    OnesComplementSumMod(ws);
    SingleFold(WordSum(ws));
  }

  // ---------------------------------------------------------------------------------
  // The checksum expression
  // ---------------------------------------------------------------------------------

  /** The reference to a field of a header or struct reference. */
  function FieldRef(ref: Expr, field: string): (r: Expr)
    ensures RefPath(ref).Some? ==> RefPath(r) == Some(RefPath(ref).value + [field])
  {
    Member(ref, field, OtherType)
  }

  /** The validity bit of a header reference. */
  function ValidityRef(ref: Expr): (r: Expr)
    ensures RefPath(ref).Some? ==> RefPath(r) == Some(RefPath(ref).value + ["*valid"])
  {
    Member(ref, "*valid", BoolType)
  }

  /** One step of the running sum: widen the word to 32 bits and add it. */
  function AddWord(sum: Expr, word: Expr): Expr {
    Add(32, sum, Cast(32, word))
  }

  /** The ten words, built from the twelve header fields: version, ihl and diffserv
      concatenated; totalLen; identification; flags and fragOffset; ttl and protocol;
      hdrChecksum; the two halves of each address. */
  function ChecksumWords(f: Ipv4<Expr>): (r: seq<Expr>)
    ensures |r| == 10
  {
    [Concat(16, Concat(8, f.version, f.ihl), f.diffserv), f.totalLen, f.identification,
     Concat(16, f.flags, f.fragOffset), Concat(16, f.ttl, f.protocol), f.hdrChecksum,
     Slice(f.srcAddr, 31, 16), Slice(f.srcAddr, 15, 0), Slice(f.dstAddr, 31, 16), Slice(f.dstAddr, 15, 0)]
  }

  /** The running sum the handler builds over ten words: the first word widened to 32
      bits, then each following word widened and added, left to right. */
  function SumOver(w: seq<Expr>): Expr
    requires |w| == 10
  {
    AddWord(AddWord(AddWord(AddWord(AddWord(AddWord(AddWord(AddWord(AddWord(
      Cast(32, w[0]), w[1]), w[2]), w[3]), w[4]), w[5]), w[6]), w[7]), w[8]), w[9])
  }

  function ChecksumSum(f: Ipv4<Expr>): Expr {
    SumOver(ChecksumWords(f))
  }

  /** Fold, complement, compare with zero. */
  function VerdictExpr(sum: Expr): Expr {
    Equ(Cmpl(16, Add(16, Slice(sum, 31, 16), Slice(sum, 15, 0))), Constant(16, 0))
  }

  function ChecksumExpr(f: Ipv4<Expr>): Expr {
    VerdictExpr(ChecksumSum(f))
  }

  /** The twelve fields in header order. */
  function FieldList<T>(f: Ipv4<T>): (r: seq<T>)
    ensures |r| == 12
  {
    [f.version, f.ihl, f.diffserv, f.totalLen, f.identification, f.flags, f.fragOffset,
     f.ttl, f.protocol, f.hdrChecksum, f.srcAddr, f.dstAddr]
  }

  /** The width of each field, in header order. */
  const FieldWidths: seq<nat> := [4, 4, 8, 16, 16, 3, 13, 8, 8, 16, 32, 32]

  /** Field expressions that evaluate, under `m`, to the fields of `h` at their widths. */
  predicate FieldsDenote(f: Ipv4<Expr>, m: Model, h: Ipv4Header) {
    forall i :: 0 <= i < 12 ==> Eval(FieldList(f)[i], m) == Some(BitsVal(FieldWidths[i], FieldList(h)[i]))
  }

  /** Ten word expressions that evaluate, under `m`, to the 16-bit words `us`. */
  predicate WordsDenote(ws: seq<Expr>, m: Model, us: seq<nat>)
    requires |ws| == 10 && |us| == 10
  {
    forall i :: 0 <= i < 10 ==> Eval(ws[i], m) == Some(BitsVal(16, us[i]))
  }

  // Evaluation of one operator node, given the values of its operands.  These only unfold
  // the evaluator; the arithmetic on the results is done apart from it, below.

  lemma {:induction false} EvalConcat(w: nat, l: Expr, r: Expr, m: Model, a: nat, wb: nat, b: nat)
    requires Eval(l, m).Some? && Eval(l, m).value.BitsVal? && Eval(l, m).value.bits == a
    requires Eval(r, m) == Some(BitsVal(wb, b))
    ensures Eval(Concat(w, l, r), m) == Some(BitsVal(w, Truncate(w, ShiftLeft(a, wb) + b)))
  {
  }

  lemma {:induction false} EvalSlice(x: Expr, hi: nat, lo: nat, m: Model, v: nat)
    requires lo <= hi
    requires Eval(x, m).Some? && Eval(x, m).value.BitsVal? && Eval(x, m).value.bits == v
    ensures Eval(Slice(x, hi, lo), m) == Some(BitsVal(hi - lo + 1, Truncate(hi - lo + 1, ShiftRight(v, lo))))
  {
  }

  lemma {:induction false} EvalCast(w: nat, x: Expr, m: Model, v: nat)
    requires Eval(x, m).Some? && Eval(x, m).value.BitsVal? && Eval(x, m).value.bits == v
    ensures Eval(Cast(w, x), m) == Some(BitsVal(w, Truncate(w, v)))
  {
  }

  lemma {:induction false} EvalAdd(w: nat, l: Expr, r: Expr, m: Model, a: nat, b: nat)
    requires Eval(l, m).Some? && Eval(l, m).value.BitsVal? && Eval(l, m).value.bits == a
    requires Eval(r, m).Some? && Eval(r, m).value.BitsVal? && Eval(r, m).value.bits == b
    ensures Eval(Add(w, l, r), m) == Some(BitsVal(w, Truncate(w, a + b)))
  {
  }

  lemma {:induction false} EvalCmpl(w: nat, x: Expr, m: Model, v: nat)
    requires Eval(x, m).Some? && Eval(x, m).value.BitsVal? && Eval(x, m).value.bits == v
    ensures Eval(Cmpl(w, x), m) == Some(BitsVal(w, Complement(w, v)))
  {
  }

  lemma {:induction false} EvalEquBits(l: Expr, r: Expr, m: Model, a: nat, b: nat)
    requires Eval(l, m).Some? && Eval(l, m).value.BitsVal? && Eval(l, m).value.bits == a
    requires Eval(r, m).Some? && Eval(r, m).value.BitsVal? && Eval(r, m).value.bits == b
    ensures Eval(Equ(l, r), m) == Some(BoolVal(a == b))
  {
  }

  // The arithmetic of each step.

  /** Bits 31..16 and 15..0 of a 32-bit value are its quotient and remainder by 2^16. */
  lemma {:induction false} HalvesArith(v: nat)
    requires v < 0x1_0000_0000
    ensures Truncate(16, ShiftRight(v, 16)) == v / 0x1_0000
    ensures Truncate(16, ShiftRight(v, 0)) == v % 0x1_0000
  {
    Pow2Values();
    ShiftRightIsDiv(v, 16);
    TruncateSmall(16, v / 0x1_0000);
    TruncateIsMod(16, v);
  }

  // The arithmetic of each concatenation, kept apart from the evaluator.

  lemma {:induction false} NibblesValue(a: nat, b: nat)
    requires a < 0x10 && b < 0x10
    ensures ConcatValue(8, Some(BitsVal(4, a)), Some(BitsVal(4, b))) == Some(BitsVal(8, a * 0x10 + b))
  {
    Pow2Values();
    ShiftLeftIsMul(a, 4);
    TruncateSmall(8, a * 0x10 + b);
  }

  lemma {:induction false} BytesValue(a: nat, b: nat)
    requires a < 0x100 && b < 0x100
    ensures ConcatValue(16, Some(BitsVal(8, a)), Some(BitsVal(8, b))) == Some(BitsVal(16, a * 0x100 + b))
  {
    Pow2Values();
    ShiftLeftIsMul(a, 8);
    TruncateSmall(16, a * 0x100 + b);
  }

  lemma {:induction false} FlagsOffsetValue(a: nat, b: nat)
    requires a < 0x8 && b < 0x2000
    ensures ConcatValue(16, Some(BitsVal(3, a)), Some(BitsVal(13, b))) == Some(BitsVal(16, a * 0x2000 + b))
  {
    Pow2Values();
    ShiftLeftIsMul(a, 13);
    TruncateSmall(16, a * 0x2000 + b);
  }

  /** Two nibbles make a byte. */
  lemma {:induction false} EvalNibbles(l: Expr, r: Expr, m: Model, a: nat, b: nat)
    requires Eval(l, m) == Some(BitsVal(4, a)) && Eval(r, m) == Some(BitsVal(4, b))
    requires a < 0x10 && b < 0x10
    ensures Eval(Concat(8, l, r), m) == Some(BitsVal(8, a * 0x10 + b))
  {
    NibblesValue(a, b);
  }

  /** Two bytes make a word. */
  lemma {:induction false} EvalBytes(l: Expr, r: Expr, m: Model, a: nat, b: nat)
    requires Eval(l, m) == Some(BitsVal(8, a)) && Eval(r, m) == Some(BitsVal(8, b))
    requires a < 0x100 && b < 0x100
    ensures Eval(Concat(16, l, r), m) == Some(BitsVal(16, a * 0x100 + b))
  {
    BytesValue(a, b);
  }

  /** Three flag bits above a 13-bit offset make a word. */
  lemma {:induction false} EvalFlagsOffset(l: Expr, r: Expr, m: Model, a: nat, b: nat)
    requires Eval(l, m) == Some(BitsVal(3, a)) && Eval(r, m) == Some(BitsVal(13, b))
    requires a < 0x8 && b < 0x2000
    ensures Eval(Concat(16, l, r), m) == Some(BitsVal(16, a * 0x2000 + b))
  {
    FlagsOffsetValue(a, b);
  }

  /** The two halves of a 32-bit value. */
  lemma {:induction false} EvalHalves(x: Expr, m: Model, v: nat)
    requires Eval(x, m) == Some(BitsVal(32, v)) && v < 0x1_0000_0000
    ensures Eval(Slice(x, 31, 16), m) == Some(BitsVal(16, v / 0x1_0000))
    ensures Eval(Slice(x, 15, 0), m) == Some(BitsVal(16, v % 0x1_0000))
  {
    EvalSlice(x, 31, 16, m, v);
    EvalSlice(x, 15, 0, m, v);
    HalvesArith(v);
  }

  /** Widening a 16-bit word to 32 bits keeps its value. */
  lemma {:induction false} EvalWiden(word: Expr, m: Model, w: nat)
    requires Eval(word, m) == Some(BitsVal(16, w)) && w < 0x1_0000
    ensures Eval(Cast(32, word), m) == Some(BitsVal(32, w))
  {
    EvalCast(32, word, m, w);
    Pow2Values();
    TruncateSmall(32, w);
  }

  /** Adding a 16-bit word to a 32-bit sum that stays below 2^32. */
  lemma {:induction false} EvalAddWordSmall(sum: Expr, word: Expr, m: Model, s: nat, w: nat)
    requires Eval(sum, m) == Some(BitsVal(32, s))
    requires Eval(word, m) == Some(BitsVal(16, w))
    requires w < 0x1_0000 && s + w < 0x1_0000_0000
    ensures Eval(AddWord(sum, word), m) == Some(BitsVal(32, s + w))
  {
    EvalWiden(word, m, w);
    EvalAdd(32, sum, Cast(32, word), m, s, w);
    Pow2Values();
    TruncateSmall(32, s + w);
  }

  /** The two halves of a 32-bit sum, added in 16 bits. */
  lemma {:induction false} FoldArith(s: nat)
    requires s < 0x1_0000_0000
    ensures Truncate(16, Truncate(16, ShiftRight(s, 16)) + Truncate(16, ShiftRight(s, 0)))
         == (s / 0x1_0000 + s % 0x1_0000) % 0x1_0000
  {
    HalvesArith(s);
    TruncateIsMod(16, s / 0x1_0000 + s % 0x1_0000);
    Pow2Values();
  }

  /** The 16-bit complement of `v` is zero exactly when `v` is all ones. */
  lemma {:induction false} ZeroTestArith(v: nat)
    requires v < 0x1_0000
    ensures (Complement(16, v) == Truncate(16, 0)) == (0xFFFF - v == 0)
  {
    Pow2Values();
    TruncateSmall(16, v);
    ComplementIsSubtraction(16, v);
    TruncateSmall(16, 0);
  }

  lemma {:induction false} WordSumPrefix(ws: seq<nat>, k: nat)
    requires k < |ws|
    ensures WordSum(ws[..k + 1]) == WordSum(ws[..k]) + ws[k]
  {
    assert ws[..k + 1][..k] == ws[..k];
  }

  /** The sum of ten words, written out. */
  lemma {:induction false} WordSumOfTen(ws: seq<nat>)
    requires |ws| == 10
    ensures WordSum(ws) == ws[0] + ws[1] + ws[2] + ws[3] + ws[4] + ws[5] + ws[6] + ws[7] + ws[8] + ws[9]
  {
    assert WordSum(ws[..0]) == 0;
    WordSumPrefix(ws, 0);
    WordSumPrefix(ws, 1);
    WordSumPrefix(ws, 2);
    WordSumPrefix(ws, 3);
    WordSumPrefix(ws, 4);
    WordSumPrefix(ws, 5);
    WordSumPrefix(ws, 6);
    WordSumPrefix(ws, 7);
    WordSumPrefix(ws, 8);
    WordSumPrefix(ws, 9);
    assert ws[..10] == ws;
  }

  // The checksum over stand-in variables.  Each part of the handler's expression is a
  // template over variables with each variable replaced by an expression the handler
  // built, so its value is the template's value in the model where each variable takes
  // the value of its expression.  Three templates: the words over one variable per field,
  // the running sum over one variable per word, and the verdict over one variable for the
  // sum.

  /** One variable per field, named after it and typed at its width. */
  const FieldVars: Ipv4<Expr> := Ipv4(
    PathExpr("version", BitsType(4)), PathExpr("ihl", BitsType(4)),
    PathExpr("diffserv", BitsType(8)), PathExpr("totalLen", BitsType(16)),
    PathExpr("identification", BitsType(16)), PathExpr("flags", BitsType(3)),
    PathExpr("fragOffset", BitsType(13)), PathExpr("ttl", BitsType(8)),
    PathExpr("protocol", BitsType(8)), PathExpr("hdrChecksum", BitsType(16)),
    PathExpr("srcAddr", BitsType(32)), PathExpr("dstAddr", BitsType(32)))

  /** Binds each stand-in variable to the given expression for its field. */
  function FieldEnv(f: Ipv4<Expr>): map<StateVar, Expr> {
    map[["version"] := f.version, ["ihl"] := f.ihl, ["diffserv"] := f.diffserv,
        ["totalLen"] := f.totalLen, ["identification"] := f.identification,
        ["flags"] := f.flags, ["fragOffset"] := f.fragOffset, ["ttl"] := f.ttl,
        ["protocol"] := f.protocol, ["hdrChecksum"] := f.hdrChecksum,
        ["srcAddr"] := f.srcAddr, ["dstAddr"] := f.dstAddr]
  }

  /** One variable per word, typed at 16 bits. */
  const WordVars: seq<Expr> := [
    PathExpr("w0", BitsType(16)), PathExpr("w1", BitsType(16)), PathExpr("w2", BitsType(16)),
    PathExpr("w3", BitsType(16)), PathExpr("w4", BitsType(16)), PathExpr("w5", BitsType(16)),
    PathExpr("w6", BitsType(16)), PathExpr("w7", BitsType(16)), PathExpr("w8", BitsType(16)),
    PathExpr("w9", BitsType(16))]

  /** Binds each word variable to the given expression for its word. */
  function WordEnv(ws: seq<Expr>): map<StateVar, Expr>
    requires |ws| == 10
  {
    map[["w0"] := ws[0], ["w1"] := ws[1], ["w2"] := ws[2], ["w3"] := ws[3], ["w4"] := ws[4],
        ["w5"] := ws[5], ["w6"] := ws[6], ["w7"] := ws[7], ["w8"] := ws[8], ["w9"] := ws[9]]
  }

  /** A variable standing for the 32-bit sum. */
  const SumVar: Expr := PathExpr("sum", BitsType(32))

  /** Words 0 to 4 of the template: the fields below the checksum. */
  lemma {:induction false} TemplateWordsEvalLow(mt: Model, h: Ipv4Header)
    requires ValidHeader(h) && FieldsDenote(FieldVars, mt, h)
    ensures forall i :: 0 <= i < 5 ==> Eval(ChecksumWords(FieldVars)[i], mt) == Some(BitsVal(16, HeaderWords(h)[i]))
  {
    var vs, ws := FieldList(FieldVars), ChecksumWords(FieldVars);
    forall i | 0 <= i < 5
      ensures Eval(ws[i], mt) == Some(BitsVal(16, HeaderWords(h)[i]))
    {
      if i == 0 {
        assert Eval(vs[0], mt) == Some(BitsVal(4, h.version));
        assert Eval(vs[1], mt) == Some(BitsVal(4, h.ihl));
        assert Eval(vs[2], mt) == Some(BitsVal(8, h.diffserv));
        EvalNibbles(vs[0], vs[1], mt, h.version, h.ihl);
        EvalBytes(Concat(8, vs[0], vs[1]), vs[2], mt, h.version * 0x10 + h.ihl, h.diffserv);
      } else if i == 1 {
        assert Eval(vs[3], mt) == Some(BitsVal(16, h.totalLen));
      } else if i == 2 {
        assert Eval(vs[4], mt) == Some(BitsVal(16, h.identification));
      } else if i == 3 {
        assert Eval(vs[5], mt) == Some(BitsVal(3, h.flags));
        assert Eval(vs[6], mt) == Some(BitsVal(13, h.fragOffset));
        EvalFlagsOffset(vs[5], vs[6], mt, h.flags, h.fragOffset);
      } else {
        assert Eval(vs[7], mt) == Some(BitsVal(8, h.ttl));
        assert Eval(vs[8], mt) == Some(BitsVal(8, h.protocol));
        EvalBytes(vs[7], vs[8], mt, h.ttl, h.protocol);
      }
    }
  }

  /** Words 5 to 9 of the template: the checksum field and the address halves. */
  lemma {:induction false} TemplateWordsEvalHigh(mt: Model, h: Ipv4Header)
    requires ValidHeader(h) && FieldsDenote(FieldVars, mt, h)
    ensures forall i :: 5 <= i < 10 ==> Eval(ChecksumWords(FieldVars)[i], mt) == Some(BitsVal(16, HeaderWords(h)[i]))
  {
    var vs, ws := FieldList(FieldVars), ChecksumWords(FieldVars);
    forall i | 5 <= i < 10
      ensures Eval(ws[i], mt) == Some(BitsVal(16, HeaderWords(h)[i]))
    {
      if i == 5 {
        assert Eval(vs[9], mt) == Some(BitsVal(16, h.hdrChecksum));
      } else if i < 8 {
        assert Eval(vs[10], mt) == Some(BitsVal(32, h.srcAddr));
        EvalHalves(vs[10], mt, h.srcAddr);
      } else {
        assert Eval(vs[11], mt) == Some(BitsVal(32, h.dstAddr));
        EvalHalves(vs[11], mt, h.dstAddr);
      }
    }
  }

  /** The template's words are the header's words. */
  lemma {:induction false} TemplateWordsEval(mt: Model, h: Ipv4Header)
    requires ValidHeader(h) && FieldsDenote(FieldVars, mt, h)
    ensures forall i :: 0 <= i < 10 ==> Eval(ChecksumWords(FieldVars)[i], mt) == Some(BitsVal(16, HeaderWords(h)[i]))
  {
    TemplateWordsEvalLow(mt, h);
    TemplateWordsEvalHigh(mt, h);
  }

  /** The first five steps of the running sum over the word variables. */
  lemma {:induction false} WordTemplateFirstHalf(mw: Model, us: seq<nat>)
    requires |us| == 10 && WordsDenote(WordVars, mw, us)
    requires forall i :: 0 <= i < 10 ==> us[i] < 0x1_0000
    ensures var ws := WordVars;
      Eval(AddWord(AddWord(AddWord(AddWord(Cast(32, ws[0]), ws[1]), ws[2]), ws[3]), ws[4]), mw)
        == Some(BitsVal(32, us[0] + us[1] + us[2] + us[3] + us[4]))
  {
    var ws := WordVars;
    var p, v := Cast(32, ws[0]), us[0];
    EvalWiden(ws[0], mw, us[0]);
    EvalAddWordSmall(p, ws[1], mw, v, us[1]);
    p, v := AddWord(p, ws[1]), v + us[1];
    EvalAddWordSmall(p, ws[2], mw, v, us[2]);
    p, v := AddWord(p, ws[2]), v + us[2];
    EvalAddWordSmall(p, ws[3], mw, v, us[3]);
    p, v := AddWord(p, ws[3]), v + us[3];
    EvalAddWordSmall(p, ws[4], mw, v, us[4]);
  }

  /** The running sum over the word variables is the plain sum of the words they hold. */
  lemma {:induction false} WordTemplateSum(mw: Model, us: seq<nat>)
    requires |us| == 10 && WordsDenote(WordVars, mw, us)
    requires forall i :: 0 <= i < 10 ==> us[i] < 0x1_0000
    ensures Eval(SumOver(WordVars), mw) == Some(BitsVal(32, WordSum(us)))
  {
    var ws := WordVars;
    WordTemplateFirstHalf(mw, us);
    WordSumOfTen(us);
    var p := AddWord(AddWord(AddWord(AddWord(Cast(32, ws[0]), ws[1]), ws[2]), ws[3]), ws[4]);
    var v := us[0] + us[1] + us[2] + us[3] + us[4];
    EvalAddWordSmall(p, ws[5], mw, v, us[5]);
    p, v := AddWord(p, ws[5]), v + us[5];
    EvalAddWordSmall(p, ws[6], mw, v, us[6]);
    p, v := AddWord(p, ws[6]), v + us[6];
    EvalAddWordSmall(p, ws[7], mw, v, us[7]);
    p, v := AddWord(p, ws[7]), v + us[7];
    EvalAddWordSmall(p, ws[8], mw, v, us[8]);
    p, v := AddWord(p, ws[8]), v + us[8];
    EvalAddWordSmall(p, ws[9], mw, v, us[9]);
  }

  /** Adding the halves of the sum variable in 16 bits. */
  lemma {:induction false} TemplateFoldEval(ms: Model, s: nat)
    requires ["sum"] in ms && ms[["sum"]] == BitsVal(32, s) && s < 0x1_0000_0000
    ensures Eval(Add(16, Slice(SumVar, 31, 16), Slice(SumVar, 15, 0)), ms)
         == Some(BitsVal(16, (s / 0x1_0000 + s % 0x1_0000) % 0x1_0000))
  {
    EvalSlice(SumVar, 31, 16, ms, s);
    EvalSlice(SumVar, 15, 0, ms, s);
    EvalAdd(16, Slice(SumVar, 31, 16), Slice(SumVar, 15, 0), ms,
      Truncate(16, ShiftRight(s, 16)), Truncate(16, ShiftRight(s, 0)));
    FoldArith(s);
  }

  /** The fold, complement and comparison turn the sum variable into the verdict on it. */
  lemma {:induction false} TemplateVerdictEval(ms: Model, s: nat)
    requires ["sum"] in ms && ms[["sum"]] == BitsVal(32, s) && s < 0x1_0000_0000
    ensures Eval(VerdictExpr(SumVar), ms) == Some(BoolVal(FoldVerdict(s)))
  {
    var folded := Add(16, Slice(SumVar, 31, 16), Slice(SumVar, 15, 0));
    var t := (s / 0x1_0000 + s % 0x1_0000) % 0x1_0000;
    TemplateFoldEval(ms, s);
    EvalCmpl(16, folded, ms, t);
    EvalEquBits(Cmpl(16, folded), Constant(16, 0), ms, Complement(16, t), Truncate(16, 0));
    ZeroTestArith(t);
  }

  // Instantiating the templates.

  /** Each stand-in variable is bound to the expression for its field. */
  lemma {:induction false} FieldEnvAt(f: Ipv4<Expr>, i: nat)
    requires i < 12
    ensures FieldList(FieldVars)[i].PathExpr?
    ensures [FieldList(FieldVars)[i].path] in FieldEnv(f)
    ensures FieldEnv(f)[[FieldList(FieldVars)[i].path]] == FieldList(f)[i]
  {
    var env := FieldEnv(f);
    if i == 0 {
      assert env[["version"]] == f.version;
    } else if i == 1 {
      assert env[["ihl"]] == f.ihl;
    } else if i == 2 {
      assert env[["diffserv"]] == f.diffserv;
    } else if i == 3 {
      assert env[["totalLen"]] == f.totalLen;
    } else if i == 4 {
      assert env[["identification"]] == f.identification;
    } else if i == 5 {
      assert env[["flags"]] == f.flags;
    } else if i == 6 {
      assert env[["fragOffset"]] == f.fragOffset;
    } else if i == 7 {
      assert env[["ttl"]] == f.ttl;
    } else if i == 8 {
      assert env[["protocol"]] == f.protocol;
    } else if i == 9 {
      assert env[["hdrChecksum"]] == f.hdrChecksum;
    } else if i == 10 {
      assert env[["srcAddr"]] == f.srcAddr;
    } else {
      assert env[["dstAddr"]] == f.dstAddr;
    }
  }

  /** Substitution replaces each field variable by the expression for its field. */
  lemma {:induction false} SubstField(f: Ipv4<Expr>, i: nat)
    requires i < 12
    ensures SubstIn(FieldEnv(f), FieldList(FieldVars)[i]) == FieldList(f)[i]
  {
    FieldEnvAt(f, i);
  }

  /** Substitution in word 0, the two nested concatenations. */
  lemma {:induction false} SubstFirstWord(f: Ipv4<Expr>)
    ensures SubstIn(FieldEnv(f), ChecksumWords(FieldVars)[0]) == ChecksumWords(f)[0]
  {
    var env, vs, fs := FieldEnv(f), FieldList(FieldVars), FieldList(f);
    SubstField(f, 0);
    SubstField(f, 1);
    SubstField(f, 2);
    assert SubstIn(env, Concat(8, vs[0], vs[1])) == Concat(8, fs[0], fs[1]);
  }

  /** Substitution in words 0 to 4. */
  lemma {:induction false} SubstWordsLow(f: Ipv4<Expr>)
    ensures forall i :: 0 <= i < 5 ==> SubstIn(FieldEnv(f), ChecksumWords(FieldVars)[i]) == ChecksumWords(f)[i]
  {
    var env, ws := FieldEnv(f), ChecksumWords(FieldVars);
    forall i | 0 <= i < 5
      ensures SubstIn(env, ws[i]) == ChecksumWords(f)[i]
    {
      if i == 0 {
        SubstFirstWord(f);
      } else if i == 1 {
        SubstField(f, 3);
      } else if i == 2 {
        SubstField(f, 4);
      } else if i == 3 {
        SubstField(f, 5);
        SubstField(f, 6);
      } else {
        SubstField(f, 7);
        SubstField(f, 8);
      }
    }
  }

  /** Substitution in words 5 to 9. */
  lemma {:induction false} SubstWordsHigh(f: Ipv4<Expr>)
    ensures forall i :: 5 <= i < 10 ==> SubstIn(FieldEnv(f), ChecksumWords(FieldVars)[i]) == ChecksumWords(f)[i]
  {
    var env, vs, fs, ws := FieldEnv(f), FieldList(FieldVars), FieldList(f), ChecksumWords(FieldVars);
    forall i | 5 <= i < 10
      ensures SubstIn(env, ws[i]) == ChecksumWords(f)[i]
    {
      if i == 5 {
        SubstField(f, 9);
      } else if i < 8 {
        SubstField(f, 10);
      } else {
        SubstField(f, 11);
      }
    }
  }

  /** Substituting the field expressions for the variables in each word gives the
      handler's word. */
  lemma {:induction false} SubstWords(f: Ipv4<Expr>)
    ensures forall i :: 0 <= i < 10 ==> SubstIn(FieldEnv(f), ChecksumWords(FieldVars)[i]) == ChecksumWords(f)[i]
  {
    SubstWordsLow(f);
    SubstWordsHigh(f);
  }

  lemma {:induction false} SubstAddWord(env: map<StateVar, Expr>, sum: Expr, word: Expr)
    ensures SubstIn(env, AddWord(sum, word)) == AddWord(SubstIn(env, sum), SubstIn(env, word))
  {
    assert SubstIn(env, Cast(32, word)) == Cast(32, SubstIn(env, word));
  }

  /** Each word variable is bound to the expression for its word. */
  lemma {:induction false} WordEnvAt(ws: seq<Expr>, i: nat)
    requires |ws| == 10 && i < 10
    ensures WordVars[i].PathExpr?
    ensures [WordVars[i].path] in WordEnv(ws)
    ensures WordEnv(ws)[[WordVars[i].path]] == ws[i]
  {
    var env := WordEnv(ws);
    if i == 0 {
      assert env[["w0"]] == ws[0];
    } else if i == 1 {
      assert env[["w1"]] == ws[1];
    } else if i == 2 {
      assert env[["w2"]] == ws[2];
    } else if i == 3 {
      assert env[["w3"]] == ws[3];
    } else if i == 4 {
      assert env[["w4"]] == ws[4];
    } else if i == 5 {
      assert env[["w5"]] == ws[5];
    } else if i == 6 {
      assert env[["w6"]] == ws[6];
    } else if i == 7 {
      assert env[["w7"]] == ws[7];
    } else if i == 8 {
      assert env[["w8"]] == ws[8];
    } else {
      assert env[["w9"]] == ws[9];
    }
  }

  /** Substitution goes through the running sum word by word. */
  lemma {:induction false} SubstSumOver(ws: seq<Expr>)
    requires |ws| == 10
    ensures SubstIn(WordEnv(ws), SumOver(WordVars)) == SumOver(ws)
  {
    var env, vs := WordEnv(ws), WordVars;
    WordEnvAt(ws, 0);
    var p, q := Cast(32, vs[0]), Cast(32, ws[0]);
    assert SubstIn(env, p) == q;
    WordEnvAt(ws, 1);
    SubstAddWord(env, p, vs[1]);
    p, q := AddWord(p, vs[1]), AddWord(q, ws[1]);
    WordEnvAt(ws, 2);
    SubstAddWord(env, p, vs[2]);
    p, q := AddWord(p, vs[2]), AddWord(q, ws[2]);
    WordEnvAt(ws, 3);
    SubstAddWord(env, p, vs[3]);
    p, q := AddWord(p, vs[3]), AddWord(q, ws[3]);
    WordEnvAt(ws, 4);
    SubstAddWord(env, p, vs[4]);
    p, q := AddWord(p, vs[4]), AddWord(q, ws[4]);
    WordEnvAt(ws, 5);
    SubstAddWord(env, p, vs[5]);
    p, q := AddWord(p, vs[5]), AddWord(q, ws[5]);
    WordEnvAt(ws, 6);
    SubstAddWord(env, p, vs[6]);
    p, q := AddWord(p, vs[6]), AddWord(q, ws[6]);
    WordEnvAt(ws, 7);
    SubstAddWord(env, p, vs[7]);
    p, q := AddWord(p, vs[7]), AddWord(q, ws[7]);
    WordEnvAt(ws, 8);
    SubstAddWord(env, p, vs[8]);
    p, q := AddWord(p, vs[8]), AddWord(q, ws[8]);
    WordEnvAt(ws, 9);
    SubstAddWord(env, p, vs[9]);
  }

  /** Substitution goes through the fold, complement and comparison. */
  lemma {:induction false} SubstVerdict(env: map<StateVar, Expr>, sum: Expr)
    ensures SubstIn(env, VerdictExpr(sum)) == VerdictExpr(SubstIn(env, sum))
  {
    var s := SubstIn(env, sum);
    assert SubstIn(env, Slice(sum, 31, 16)) == Slice(s, 31, 16);
    assert SubstIn(env, Slice(sum, 15, 0)) == Slice(s, 15, 0);
    var folded := Add(16, Slice(sum, 31, 16), Slice(sum, 15, 0));
    assert SubstIn(env, folded) == Add(16, Slice(s, 31, 16), Slice(s, 15, 0));
    assert SubstIn(env, Cmpl(16, folded)) == Cmpl(16, SubstIn(env, folded));
  }

  /** In the overlaid model each variable holds the value of its field's expression. */
  lemma {:induction false} OverlayDenotes(f: Ipv4<Expr>, m: Model, h: Ipv4Header)
    requires FieldsDenote(f, m, h)
    ensures FieldsDenote(FieldVars, Overlay(m, FieldEnv(f)), h)
  {
    var env := FieldEnv(f);
    forall i | 0 <= i < 12
      ensures Eval(FieldList(FieldVars)[i], Overlay(m, env)) == Some(BitsVal(FieldWidths[i], FieldList(h)[i]))
    {
      FieldEnvAt(f, i);
      OverlayAt(m, env, [FieldList(FieldVars)[i].path]);
    }
  }

  /** In the overlaid model each word variable holds the value of its word's expression. */
  lemma {:induction false} OverlayWords(ws: seq<Expr>, m: Model, us: seq<nat>)
    requires |ws| == 10 && |us| == 10 && WordsDenote(ws, m, us)
    ensures WordsDenote(WordVars, Overlay(m, WordEnv(ws)), us)
  {
    var env := WordEnv(ws);
    forall i | 0 <= i < 10
      ensures Eval(WordVars[i], Overlay(m, env)) == Some(BitsVal(16, us[i]))
    {
      WordEnvAt(ws, i);
      OverlayAt(m, env, [WordVars[i].path]);
    }
  }

  /** The words the handler builds from the fields evaluate to the header's words. */
  lemma {:induction false} WordsEval(f: Ipv4<Expr>, m: Model, h: Ipv4Header)
    requires ValidHeader(h) && FieldsDenote(f, m, h)
    ensures WordsDenote(ChecksumWords(f), m, HeaderWords(h))
  {
    var env, vs, ws := FieldEnv(f), ChecksumWords(FieldVars), ChecksumWords(f);
    OverlayDenotes(f, m, h);
    TemplateWordsEval(Overlay(m, env), h);
    SubstWords(f);
    forall i | 0 <= i < 10
      ensures Eval(ws[i], m) == Some(BitsVal(16, HeaderWords(h)[i]))
    {
      SubstEval(env, vs[i], m);
    }
  }

  /** A running sum over words that stays below 2^32 evaluates to their plain sum. */
  lemma {:induction false} SumEval(ws: seq<Expr>, m: Model, us: seq<nat>)
    requires |ws| == 10 && |us| == 10 && WordsDenote(ws, m, us)
    requires forall i :: 0 <= i < 10 ==> us[i] < 0x1_0000
    ensures Eval(SumOver(ws), m) == Some(BitsVal(32, WordSum(us)))
  {
    var env := WordEnv(ws);
    OverlayWords(ws, m, us);
    WordTemplateSum(Overlay(m, env), us);
    SubstEval(env, SumOver(WordVars), m);
    SubstSumOver(ws);
  }

  /** The fold, complement and comparison turn any 32-bit sum into the verdict on it. */
  lemma {:induction false} VerdictEval(sum: Expr, m: Model, s: nat)
    requires Eval(sum, m) == Some(BitsVal(32, s)) && s < 0x1_0000_0000
    ensures Eval(VerdictExpr(sum), m) == Some(BoolVal(FoldVerdict(s)))
  {
    var env := map[["sum"] := sum];
    OverlayAt(m, env, ["sum"]);
    TemplateVerdictEval(Overlay(m, env), s);
    SubstEval(env, VerdictExpr(SumVar), m);
    assert SubstIn(env, SumVar) == sum;
    SubstVerdict(env, SumVar);
  }

  /** The returned expression evaluates to the handler's verdict on the header. */
  lemma {:induction false} ChecksumExprEval(f: Ipv4<Expr>, m: Model, h: Ipv4Header)
    requires ValidHeader(h) && FieldsDenote(f, m, h)
    ensures Eval(ChecksumExpr(f), m) == Some(BoolVal(ChecksumVerdict(h)))
  {
    WordsEval(f, m, h);
    HeaderWordsBounded(h);
    SumEval(ChecksumWords(f), m, HeaderWords(h));
    ChecksumSumFits(h);
    VerdictEval(ChecksumSum(f), m, WordSum(HeaderWords(h)));
  }

  /** The returned expression means the checksum verdict: whenever the header fields the
      handler read evaluate to a well-formed header, the expression evaluates to true
      exactly when the header passes the RFC 1071 check. */
  lemma {:induction false} ChecksumExprMeaning(f: Ipv4<Expr>, m: Model, h: Ipv4Header)
    requires ValidHeader(h) && FieldsDenote(f, m, h)
    ensures Eval(ChecksumExpr(f), m) == Some(BoolVal(HeaderChecksumCorrect(h)))
  {
    ChecksumExprEval(f, m, h);
    ChecksumVerdictIsOnesComplementCheck(h);
  }

  // ---------------------------------------------------------------------------------
  // tcp_conntrack's condition
  // ---------------------------------------------------------------------------------

  /** `syn == 1 && ack == 0`, with each constant taking the type of the value it is
      compared with. */
  function ConntrackCond(syn: Expr, ack: Expr, synWidth: nat, ackWidth: nat): Expr {
    LAnd(Equ(syn, Constant(synWidth, 1)), Equ(ack, Constant(ackWidth, 0)))
  }

  /** The condition holds exactly for a SYN without ACK. */
  lemma {:induction false} ConntrackCondMeaning(syn: Expr, ack: Expr, synWidth: nat, ackWidth: nat, m: Model, a: nat, b: nat)
    requires synWidth >= 1
    requires Eval(syn, m).Some? && Eval(syn, m).value.BitsVal? && Eval(syn, m).value.bits == a
    requires Eval(ack, m).Some? && Eval(ack, m).value.BitsVal? && Eval(ack, m).value.bits == b
    ensures Eval(ConntrackCond(syn, ack, synWidth, ackWidth), m) == Some(BoolVal(a == 1 && b == 0))
  {
    assert Pow2(synWidth) >= 2 by {
      assert Pow2(synWidth) == 2 * Pow2(synWidth - 1);
    }
    TruncateSmall(synWidth, 1);
    TruncateSmall(ackWidth, 0);
    EvalEquBits(syn, Constant(synWidth, 1), m, a, 1);
    EvalEquBits(ack, Constant(ackWidth, 0), m, b, 0);
  }

  // ---------------------------------------------------------------------------------
  // The handlers
  // ---------------------------------------------------------------------------------

  /** CounterArray.add and CounterArray.increment: counting has no effect on the symbolic
      state, so the call is popped and nothing else changes. */
  method CounterArrayNoOp(state: ExecutionState) returns (r: StepResult)
    requires |state.body| > 0
    ensures r.Successors? && |r.states| == 1
    ensures r.states[0].body == state.body[1..]
    ensures r.states[0].env == state.env && r.states[0].taint == state.taint
  {
    var nextState := state.PopBody();
    return Successors([nextState]);
  }

  predicate IsReference(e: Expr) {
    e.Member? || e.PathExpr?
  }

  /** Looking up every field of the header reference. */
  function FieldGets(state: ExecutionState, ref: Expr): Ipv4<Option<Expr>> {
    var n := Ipv4FieldNames;
    Ipv4(state.Get(FieldRef(ref, n.version)), state.Get(FieldRef(ref, n.ihl)),
      state.Get(FieldRef(ref, n.diffserv)), state.Get(FieldRef(ref, n.totalLen)),
      state.Get(FieldRef(ref, n.identification)), state.Get(FieldRef(ref, n.flags)),
      state.Get(FieldRef(ref, n.fragOffset)), state.Get(FieldRef(ref, n.ttl)),
      state.Get(FieldRef(ref, n.protocol)), state.Get(FieldRef(ref, n.hdrChecksum)),
      state.Get(FieldRef(ref, n.srcAddr)), state.Get(FieldRef(ref, n.dstAddr)))
  }

  predicate AllBound(g: Ipv4<Option<Expr>>) {
    && g.version.Some? && g.ihl.Some? && g.diffserv.Some? && g.totalLen.Some?
    && g.identification.Some? && g.flags.Some? && g.fragOffset.Some? && g.ttl.Some?
    && g.protocol.Some? && g.hdrChecksum.Some? && g.srcAddr.Some? && g.dstAddr.Some?
  }

  function Bound(g: Ipv4<Option<Expr>>): Ipv4<Expr>
    requires AllBound(g)
  {
    Ipv4(g.version.value, g.ihl.value, g.diffserv.value, g.totalLen.value, g.identification.value,
      g.flags.value, g.fragOffset.value, g.ttl.value, g.protocol.value, g.hdrChecksum.value,
      g.srcAddr.value, g.dstAddr.value)
  }

  /** The running sum over the header fields, written out step by step as the handler
      builds it. */
  lemma {:induction false} ChecksumSumSteps(f: Ipv4<Expr>)
    ensures ChecksumSum(f) ==
      AddWord(AddWord(AddWord(AddWord(AddWord(AddWord(AddWord(AddWord(AddWord(
        Cast(32, Concat(16, Concat(8, f.version, f.ihl), f.diffserv)),
        f.totalLen), f.identification), Concat(16, f.flags, f.fragOffset)),
        Concat(16, f.ttl, f.protocol)), f.hdrChecksum),
        Slice(f.srcAddr, 31, 16)), Slice(f.srcAddr, 15, 0)),
        Slice(f.dstAddr, 31, 16)), Slice(f.dstAddr, 15, 0))
  {
    var w := ChecksumWords(f);
    assert w[0] == Concat(16, Concat(8, f.version, f.ihl), f.diffserv);
    assert w[9] == Slice(f.dstAddr, 15, 0);
  }

  /** What `verify_ipv4_checksum` yields for the argument `ipHdrRef`: unimplemented for a
      non-reference, a BUG for a non-header; false when the validity bit is tainted or
      false; otherwise the checksum comparison over the header fields read from the state. */
  predicate ChecksumOutcome(ipHdrRef: Expr, state: ExecutionState, r: StepResult)
    requires |state.body| > 0
  {
    && (!IsReference(ipHdrRef) ==> r.Unimplemented?)
    && (IsReference(ipHdrRef) && TypeOf(ipHdrRef) != HeaderType ==> r.Bug?)
    && (IsReference(ipHdrRef) && TypeOf(ipHdrRef) == HeaderType ==>
          match state.Get(ValidityRef(ipHdrRef))
          case None => r.Bug?
          case Some(validVar) =>
            if state.HasTaint(validVar) || validVar == BoolLit(false) then
              r == Successors([state.ReplaceTopBody(Return(BoolLit(false)))])
            else if !validVar.BoolLit? || !AllBound(FieldGets(state, ipHdrRef)) then r.Bug?
            else r == Successors([state.ReplaceTopBody(Return(ChecksumExpr(Bound(FieldGets(state, ipHdrRef)))))]))
  }

  /** verify_ipv4_checksum(iphdr). */
  method VerifyIpv4Checksum(ipHdrRef: Expr, state: ExecutionState) returns (r: StepResult)
    requires |state.body| > 0
    ensures ChecksumOutcome(ipHdrRef, state, r)
  {
    if !IsReference(ipHdrRef) {
      return Unimplemented("IP header input not supported");
    }
    if TypeOf(ipHdrRef) != HeaderType {
      return Bug("IP header input is not a header");
    }
    var valid := state.Get(ValidityRef(ipHdrRef));
    if valid.None? {
      return Bug("validity of the IP header is unbound");
    }
    var validVar := valid.value;
    var emitIsTainted := state.HasTaint(validVar);
    if !emitIsTainted && !validVar.BoolLit? {
      return Bug("validity of the IP header is not a boolean literal");
    }
    if emitIsTainted || !validVar.boolean {
      var nextState := state.ReplaceTopBody(Return(BoolLit(false)));
      return Successors([nextState]);
    }
    var gets := FieldGets(state, ipHdrRef);
    if !AllBound(gets) {
      return Bug("IP header field is unbound");
    }
    var f := Bound(gets);
    var checksum := Cast(32, Concat(16, Concat(8, f.version, f.ihl), f.diffserv));
    checksum := AddWord(checksum, f.totalLen);
    checksum := AddWord(checksum, f.identification);
    checksum := AddWord(checksum, Concat(16, f.flags, f.fragOffset));
    checksum := AddWord(checksum, Concat(16, f.ttl, f.protocol));
    checksum := AddWord(checksum, f.hdrChecksum);
    checksum := AddWord(checksum, Slice(f.srcAddr, 31, 16));
    checksum := AddWord(checksum, Slice(f.srcAddr, 15, 0));
    checksum := AddWord(checksum, Slice(f.dstAddr, 31, 16));
    checksum := AddWord(checksum, Slice(f.dstAddr, 15, 0));
    checksum := Add(16, Slice(checksum, 31, 16), Slice(checksum, 15, 0));
    var calcResult := Cmpl(16, checksum);
    var comparison := Equ(calcResult, Constant(16, 0));
    ChecksumSumSteps(f);
    var nextState := state.ReplaceTopBody(Return(comparison));
    return Successors([nextState]);
  }

  /** What `tcp_conntrack` yields for the argument `headers`: unimplemented for a
      non-reference, a BUG for a non-struct or unreadable flags; otherwise the condition
      `syn == 1 && ack == 0` over the flags read from the state. */
  predicate ConntrackOutcome(headers: Expr, state: ExecutionState, r: StepResult)
    requires |state.body| > 0
  {
    && (!IsReference(headers) ==> r.Unimplemented?)
    && (IsReference(headers) && TypeOf(headers) != StructType ==> r.Bug?)
    && (IsReference(headers) && TypeOf(headers) == StructType ==>
          var tcpRef := FieldRef(headers, "tcp");
          match (state.Get(FieldRef(tcpRef, "syn")), state.Get(FieldRef(tcpRef, "ack")))
          case (Some(syn), Some(ack)) =>
            if TypeOf(syn).BitsType? && TypeOf(ack).BitsType? then
              r == Successors([state.ReplaceTopBody(Return(
                     ConntrackCond(syn, ack, TypeOf(syn).width, TypeOf(ack).width)))])
            else r.Bug?
          case _ => r.Bug?)
  }

  /** tcp_conntrack(hdrs). */
  method TcpConntrack(headers: Expr, state: ExecutionState) returns (r: StepResult)
    requires |state.body| > 0
    ensures ConntrackOutcome(headers, state, r)
  {
    if !IsReference(headers) {
      return Unimplemented("IP header input not supported");
    }
    if TypeOf(headers) != StructType {
      return Bug("headers input is not a struct");
    }
    var tcpRef := FieldRef(headers, "tcp");
    var syn := state.Get(FieldRef(tcpRef, "syn"));
    var ack := state.Get(FieldRef(tcpRef, "ack"));
    if syn.None? || ack.None? {
      return Bug("TCP flag is unbound");
    }
    if !TypeOf(syn.value).BitsType? || !TypeOf(ack.value).BitsType? {
      return Bug("TCP flag is not a bit vector");
    }
    var nextState := state.ReplaceTopBody(Return(
      ConntrackCond(syn.value, ack.value, TypeOf(syn.value).width, TypeOf(ack.value).width)));
    return Successors([nextState]);
  }

  // ---------------------------------------------------------------------------------
  // The extern table and dispatch
  // ---------------------------------------------------------------------------------

  const CounterAdd: HandlerId := 0
  const CounterIncrement: HandlerId := 1
  const VerifyChecksum: HandlerId := 2
  const Conntrack: HandlerId := 3

  const ExternMethodImplList: seq<ImplSpec> := [
    ImplSpec("CounterArray.add", ["index", "value"], CounterAdd),
    ImplSpec("CounterArray.increment", ["index"], CounterIncrement),
    ImplSpec("*method.verify_ipv4_checksum", ["iphdr"], VerifyChecksum),
    ImplSpec("*method.tcp_conntrack", ["hdrs"], Conntrack)]

  function ExternMethodImpls(): ImplMap {
    AddAll(map[], ExternMethodImplList)
  }

  /** The table holds one bucket per extern, each with the one overload registered. */
  lemma {:induction false} ExternTableContents()
    ensures ExternMethodImpls() == map[
      "CounterArray.add" := map[2 := [Overload(["index", "value"], CounterAdd)]],
      "CounterArray.increment" := map[1 := [Overload(["index"], CounterIncrement)]],
      "*method.verify_ipv4_checksum" := map[1 := [Overload(["iphdr"], VerifyChecksum)]],
      "*method.tcp_conntrack" := map[1 := [Overload(["hdrs"], Conntrack)]]]
  {
    var l := ExternMethodImplList;
    var m1 := AddOne(map[], l[0]);
    AddOneFresh(map[], l[0]);
    var m2 := AddOne(m1, l[1]);
    AddOneFresh(m1, l[1]);
    var m3 := AddOne(m2, l[2]);
    AddOneFresh(m2, l[2]);
    var m4 := AddOne(m3, l[3]);
    AddOneFresh(m3, l[3]);
    assert l[..1][..0] == [] && l[..2][..1] == l[..1] && l[..3][..2] == l[..2];
    assert l[..4] == l && l[..4][..3] == l[..3];
    assert AddAll(map[], l[..1]) == m1;
    assert AddAll(map[], l[..2]) == m2;
    assert AddAll(map[], l[..3]) == m3;
    assert AddAll(map[], l) == m4;
  }

  /** The table registers one overload per name, so a call is never ambiguous: it either
      reaches its handler or falls through. */
  lemma {:induction false} ExternTableUnambiguous(name: string, args: seq<Argument>)
    ensures DispatchSpec(ExternMethodImpls(), name, args) != Ambiguous
    ensures (name !in ["CounterArray.add", "CounterArray.increment", "*method.verify_ipv4_checksum",
                       "*method.tcp_conntrack"]) ==> DispatchSpec(ExternMethodImpls(), name, args) == NotFound
    ensures DispatchSpec(ExternMethodImpls(), name, args).Dispatched? ==>
      DispatchSpec(ExternMethodImpls(), name, args).impl in {CounterAdd, CounterIncrement, VerifyChecksum, Conntrack}
    ensures (DispatchSpec(ExternMethodImpls(), name, args) in {Dispatched(VerifyChecksum), Dispatched(Conntrack)}) ==>
      |args| == 1
  {
    ExternTableContents();
    var m := ExternMethodImpls();
    if name in m && |args| in m[name] {
      assert |m[name][|args|]| == 1;
    }
  }

  /** `CounterArray.add` called with two unnamed arguments reaches its handler, whose one
      successor is the state with the call popped. */
  lemma {:induction false} PositionalCounterAdd(args: seq<Argument>)
    requires |args| == 2 && AllUnnamed(args)
    ensures DispatchSpec(ExternMethodImpls(), "CounterArray.add", args) == Dispatched(CounterAdd)
  {
    ExternTableContents();
    assert ArgsMatch(["index", "value"], args);
  }

  /** `evalExternMethodCall`: dispatches on the qualified method name (the receiver's
      extern type and the method, or `*method.` and the function) and the arguments. */
  method EvalExternMethodCall(qualifiedName: string, args: seq<Argument>, state: ExecutionState)
    returns (r: StepResult)
    requires |state.body| > 0
    ensures DispatchSpec(ExternMethodImpls(), qualifiedName, args) == NotFound <==> r == Fallthrough
    ensures DispatchSpec(ExternMethodImpls(), qualifiedName, args) in
            {Dispatched(CounterAdd), Dispatched(CounterIncrement)} ==>
      r == Successors([state.PopBody()])
    ensures DispatchSpec(ExternMethodImpls(), qualifiedName, args) == Dispatched(VerifyChecksum) ==>
      |args| == 1 && ChecksumOutcome(args[0].expression, state, r)
    ensures DispatchSpec(ExternMethodImpls(), qualifiedName, args) == Dispatched(Conntrack) ==>
      |args| == 1 && ConntrackOutcome(args[0].expression, state, r)
    ensures DispatchSpec(ExternMethodImpls(), qualifiedName, args) in
            {Dispatched(VerifyChecksum), Dispatched(Conntrack)} ==>
      |args| == 1 && (!IsReference(args[0].expression) <==> r.Unimplemented?)
    ensures r.Successors? ==> |r.states| == 1
  {
    var d := DispatchSpec(ExternMethodImpls(), qualifiedName, args);
    ExternTableUnambiguous(qualifiedName, args);
    match d
    case NotFound =>
      return Fallthrough;
    case Ambiguous =>
      return Bug("Ambiguous extern method call");
    case Dispatched(h) =>
      if h == CounterAdd || h == CounterIncrement {
        r := CounterArrayNoOp(state);
      } else if h == VerifyChecksum {
        r := VerifyIpv4Checksum(args[0].expression, state);
      } else {
        r := TcpConntrack(args[0].expression, state);
      }
  }
}
