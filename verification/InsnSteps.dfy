/** The x86 instruction decoder as a function of its state: what each stage makes of any state. */
module InsnSteps {
  import opened Machine
  import opened InsnCode

  // --- The decoder's state -----------------------------------------------------------------------------

  /** The fields of `struct insn`: those about the prefixes, the opcode, and those about operands.
      `immediate`, `immediate1` and `moffset1` share their storage, and so do `immediate2` and
      `moffset2`. */
  datatype Front = Front(prefixes: Slots, rex: Part, vex: Slots, opndBytes: nat, addrBytes: nat)
  datatype Back = Back(modrm: Part, sib: Part, displacement: Part, immediate: Part, immediate2: Part)
  datatype State = State(next: nat, front: Front, opcode: Part, attr: Attr, back: Back)

  function Start(x86_64: bool): State {
    State(0, Front(FOUR, NONE, FOUR, 4, if x86_64 then 8 else 4), NONE, Bad, Back(NONE, NONE, NONE, NONE, NONE))
  }

  /** Nothing has been decoded yet. */
  ghost predicate Fresh(code: Code, s: State) {
    && s.next == 0 && s.front.prefixes == s.front.vex == FOUR && s.front.rex == NONE && s.opcode == NONE
    && s.attr == Bad
    && s.back.modrm == s.back.sib == s.back.displacement == s.back.immediate == s.back.immediate2 == NONE
    && s.front.opndBytes == 4 && s.front.addrBytes == if code.x86_64 then 8 else 4
  }

  /** The sum of all field lengths. */
  function Total(s: State): nat {
    s.front.prefixes.nbytes + s.front.rex.nbytes + s.front.vex.nbytes + s.opcode.nbytes + s.back.modrm.nbytes
    + s.back.sib.nbytes + s.back.displacement.nbytes + s.back.immediate.nbytes + s.back.immediate2.nbytes
  }

  /** Nothing has been read beyond the limit, and the fields hold no more than was read. */
  ghost predicate Ok(code: Code, s: State) { Total(s) <= s.next <= EndOf(code) }

  /** Every byte read is in a field. */
  ghost predicate Exact(s: State) { Total(s) == s.next }

  ghost predicate Sizes(s: State) { Size(s.front.addrBytes) && Size(s.front.opndBytes) }

  ghost function PreIn(s: State): (p: Pre)
    ensures FourEach(p)
  {
    Pre(s.front.prefixes.bytes, s.front.prefixes.nbytes, s.front.rex.bytes, s.front.vex.bytes, s.front.vex.nbytes)
  }

  /** A state, and whether the stage succeeded. */
  datatype Tried = Tried(ok: bool, s: State)

  // --- Prefixes ------------------------------------------------------------------------------------------

  ghost function LegacyS(code: Code, s: State): (r: Tried)
    requires Ok(code, s)
    ensures Ok(code, r.s) && s.next <= r.s.next && r.s == s.(next := r.s.next, front := r.s.front)
    ensures r.s.front.prefixes.got == s.front.prefixes.got
  {
    var (j, st) := LegacyFrom(code, s.next, Scan(s.front.prefixes.bytes, 0, s.front.opndBytes, s.front.addrBytes));
    var ok := j < EndOf(code);
    var slots := if ok then PutLast(st.slots, st.nb, LastByte(code, s.next, j)) else st.slots;
    var legacy := Field(slots, s.front.prefixes.got, s.front.prefixes.nbytes + j - s.next);
    Tried(ok, s.(next := j, front := s.front.(prefixes := legacy, opndBytes := st.opnd, addrBytes := st.addr)))
  }

  ghost function RexS(code: Code, s: State): (r: Tried)
    requires Ok(code, s)
    ensures Ok(code, r.s) && s.next <= r.s.next && r.s == s.(next := r.s.next, front := r.s.front)
    ensures r.s.front.prefixes == s.front.prefixes
  {
    if code.x86_64 && s.next == EndOf(code) then Tried(false, s)
    else if RexLen(code, s.next) == 0 then Tried(true, s.(front := s.front.(rex := s.front.rex.(got := true))))
    else
      var b := code.buf[s.next];
      var opnd := if RexW(b) then 8 else s.front.opndBytes;
      Tried(true, s.(next := s.next + 1, front := s.front.(rex := Field([b], true, 1), opndBytes := opnd)))
  }

  /** The bytes of a VEX prefix at `i` over those in `vex`, as far as there are any. */
  ghost function VexRead(code: Code, i: nat, vex: seq<Byte>): (v: seq<Byte>)
    requires |vex| == 4
    ensures |v| == 4
  {
    var end := EndOf(code);
    if i + 1 >= end || !IsVex(code.tables.opcode(code.buf[i])) || (!code.x86_64 && Mod(code.buf[i + 1]) != 3) then vex
    else
      var a, v := code.tables.opcode(code.buf[i]), vex[0 := code.buf[i]][1 := code.buf[i + 1]];
      if IsEvex(a) then
        if i + 2 >= end then v
        else if i + 3 >= end then v[2 := code.buf[i + 2]]
        else v[2 := code.buf[i + 2]][3 := code.buf[i + 3]]
      else if IsVex3(a) then (if i + 2 >= end then v else v[2 := code.buf[i + 2]])
      else v[2 := code.buf[i + 1] % 128]
  }

  ghost function VexS(code: Code, s: State): (r: Tried)
    requires Ok(code, s)
    ensures Ok(code, r.s) && s.next <= r.s.next && r.s == s.(next := r.s.next, front := r.s.front)
    ensures r.s.front.prefixes == s.front.prefixes
  {
    var bytes, ok := VexRead(code, s.next, s.front.vex.bytes), VexFits(code, s.next);
    if !ok then Tried(false, s.(front := s.front.(vex := s.front.vex.(bytes := bytes))))
    else
      var n := VexLen(code, s.next);
      var vex := Field(bytes, true, if n > 0 then n else s.front.vex.nbytes);
      var opnd := if VexWide(code.x86_64, bytes, n) then 8 else s.front.opndBytes;
      Tried(true, s.(next := s.next + n, front := s.front.(vex := vex, opndBytes := opnd)))
  }

  /** `insn_get_prefixes` */
  ghost function ScanS(code: Code, s: State): (r: State)
    requires Ok(code, s)
    ensures Ok(code, r) && s.next <= r.next && r == s.(next := r.next, front := r.front)
  {
    if s.front.prefixes.got then s
    else
      var l := LegacyS(code, s);
      if !l.ok then l.s
      else
        var x := RexS(code, l.s);
        if !x.ok then x.s
        else
          var v := VexS(code, x.s);
          if v.ok then v.s.(front := v.s.front.(prefixes := v.s.front.prefixes.(got := true))) else v.s
  }

  // --- Opcode ----------------------------------------------------------------------------------------------

  /** The attribute of an opcode after a VEX prefix. */
  ghost function AvxS(code: Code, op: Byte, s: State): (r: State)
    requires Ok(code, s)
    ensures Ok(code, r) && s.next <= r.next && r == s.(next := r.next, front := r.front, attr := r.attr)
  {
    var m, p := VexM(s.front.vex.bytes, s.front.vex.nbytes), VexP(s.front.vex.bytes, s.front.vex.nbytes);
    var a := code.tables.avx(op, m, p);
    var s' := if a.Has(EvexOnly) then ScanS(code, s.(attr := a)) else s.(attr := a);
    var bad := (a.Has(EvexOnly) && s'.front.vex.nbytes != 4) || (!a.Has(VexOk) && a.Group() == 0);
    s'.(attr := if bad then Bad else a)
  }

  /** Another opcode byte after an escape. */
  ghost function EscapeS(code: Code, s: State): (r: State)
    requires Ok(code, s) && s.next < EndOf(code)
    ensures Ok(code, r) && s.next < r.next
    ensures r == s.(next := r.next, front := r.front, opcode := r.opcode, attr := r.attr)
    ensures r.opcode.got == s.opcode.got
  {
    var op := code.buf[s.next];
    var s1 := s.(next := s.next + 1, opcode := Field(s.opcode.bytes + [op], s.opcode.got, s.opcode.nbytes + 1));
    var s2 := ScanS(code, s1);
    s2.(attr := code.tables.escaped(op, LastId(code.tables, PreIn(s2)), s2.attr))
  }

  ghost function EscapesS(code: Code, s: State): (r: Tried)
    requires Ok(code, s)
    ensures Ok(code, r.s) && s.next <= r.s.next && r.s.opcode.got == s.opcode.got
    ensures r.s == s.(next := r.s.next, front := r.s.front, opcode := r.s.opcode, attr := r.s.attr)
    decreases EndOf(code) - s.next
  {
    if s.attr.Escape() == 0 then Tried(true, s)
    else if s.next == EndOf(code) then Tried(false, s)
    else EscapesS(code, EscapeS(code, s))
  }

  /** The attribute of an opcode without a VEX prefix, whose first byte is `op`. */
  ghost function PlainS(code: Code, op: Byte, s: State): (r: Tried)
    requires Ok(code, s)
    ensures Ok(code, r.s) && s.next <= r.s.next && r.s.opcode.got == s.opcode.got
    ensures r.s == s.(next := r.s.next, front := r.s.front, opcode := r.s.opcode, attr := r.s.attr)
  {
    var r := EscapesS(code, s.(attr := code.tables.opcode(op)));
    if r.ok && (r.s.attr.Has(VexOnly) || r.s.attr.Has(EvexOnly)) then r.(s := r.s.(attr := Bad)) else r
  }

  ghost function OpcodeS(code: Code, s: State): (r: Tried)
    requires Ok(code, s)
    ensures Ok(code, r.s) && s.next <= r.s.next && r.s.opcode.got == s.opcode.got
    ensures r.s == s.(next := r.s.next, front := r.s.front, opcode := r.s.opcode, attr := r.s.attr)
  {
    if s.next == EndOf(code) then Tried(false, s)
    else
      var op := code.buf[s.next];
      var s' := ScanS(code, s.(next := s.next + 1, opcode := Field([op], s.opcode.got, 1)));
      if Avx(s'.front.vex.bytes) then Tried(true, AvxS(code, op, s')) else PlainS(code, op, s')
  }

  /** `insn_get_opcode` */
  ghost function GetOpcodeS(code: Code, s: State): (r: State)
    requires Ok(code, s)
    ensures Ok(code, r) && s.next <= r.next
    ensures r == s.(next := r.next, front := r.front, opcode := r.opcode, attr := r.attr)
  {
    if s.opcode.got then s
    else
      var r := OpcodeS(code, ScanS(code, s));
      if r.ok then r.s.(opcode := r.s.opcode.(got := true)) else r.s
  }

  // --- ModRM, SIB and displacement -------------------------------------------------------------------------

  /** The attribute of a group, which the ModRM byte decides. */
  ghost function GroupS(code: Code, mod: Byte, s: State): (r: State)
    requires Ok(code, s)
    ensures Ok(code, r) && s.next <= r.next && r == s.(next := r.next, front := r.front, attr := r.attr)
  {
    var s1 := ScanS(code, s);
    var a := code.tables.grouped(mod, LastId(code.tables, PreIn(s1)), s1.attr);
    var s2 := ScanS(code, s1.(attr := a));
    s2.(attr := if Avx(s2.front.vex.bytes) && !a.Has(VexOk) then Bad else a)
  }

  ghost function TakenModrm(code: Code, s: State): (r: State)
    requires Ok(code, s) && s.next < EndOf(code)
    ensures Ok(code, r) && s.next < r.next
  {
    s.(next := s.next + 1, back := s.back.(modrm := Field([code.buf[s.next]], s.back.modrm.got, 1)))
  }

  ghost function ModrmS(code: Code, s: State): (r: Tried)
    requires Ok(code, s)
    ensures Ok(code, r.s) && s.next <= r.s.next && r.s.opcode == s.opcode && r.s.back.modrm.got == s.back.modrm.got
    ensures r.s.back == s.back.(modrm := r.s.back.modrm)
  {
    if !s.attr.Has(Modrm) then Tried(true, s)
    else if s.next == EndOf(code) then Tried(false, s)
    else
      Tried(true, if s.attr.Group() != 0 then GroupS(code, code.buf[s.next], TakenModrm(code, s))
        else TakenModrm(code, s))
  }

  lemma ModrmTaken(code: Code, s: State, s2: State)
    requires Ok(code, s) && s.attr.Has(Modrm) && s.next < EndOf(code)
    requires s2 == if s.attr.Group() != 0 then GroupS(code, code.buf[s.next], TakenModrm(code, s))
      else TakenModrm(code, s)
    ensures ModrmS(code, s) == Tried(true, s2)
  {
  }

  /** `insn_get_modrm` */
  ghost function GetModrmS(code: Code, s: State): (r: State)
    requires Ok(code, s)
    ensures Ok(code, r) && s.next <= r.next && r.back == s.back.(modrm := r.back.modrm)
  {
    if s.back.modrm.got then s
    else
      var r := ModrmS(code, GetOpcodeS(code, s));
      if !r.ok then r.s else Marked(code, r.s)
  }

  ghost function Marked(code: Code, s: State): (r: State)
    requires Ok(code, s)
    ensures Ok(code, r)
  {
    var opnd := if code.x86_64 && s.attr.Has(Force64) then 8 else s.front.opndBytes;
    s.(front := s.front.(opndBytes := opnd), back := s.back.(modrm := s.back.modrm.(got := true)))
  }

  ghost function SibS(code: Code, s: State): (r: State)
    requires Ok(code, s)
    ensures Ok(code, r) && s.next <= r.next && r == s.(next := r.next, back := s.back.(sib := r.back.sib))
  {
    if !HasSib(s.back.modrm.bytes, s.front.addrBytes) then s.(back := s.back.(sib := s.back.sib.(got := true)))
    else if s.next == EndOf(code) then s
    else s.(next := s.next + 1, back := s.back.(sib := Field([code.buf[s.next]], true, 1)))
  }

  /** `insn_get_sib` */
  ghost function GetSibS(code: Code, s: State): (r: State)
    requires Ok(code, s)
    ensures Ok(code, r) && s.next <= r.next && r.back == s.back.(modrm := r.back.modrm, sib := r.back.sib)
  {
    if s.back.sib.got then s else SibS(code, GetModrmS(code, s))
  }

  ghost function DispS(code: Code, s: State): (r: State)
    requires Ok(code, s)
    ensures Ok(code, r) && s.next <= r.next
    ensures r == s.(next := r.next, back := s.back.(displacement := r.back.displacement))
  {
    var n := DispSize(s.back.modrm.bytes, s.back.sib.bytes, s.front.addrBytes);
    if n == 0 then s.(back := s.back.(displacement := s.back.displacement.(got := true)))
    else if s.next + n > EndOf(code) then s
    else s.(next := s.next + n, back := s.back.(displacement := Field(code.buf[s.next..s.next + n], true, n)))
  }

  /** `insn_get_displacement` */
  ghost function GetDispS(code: Code, s: State): (r: State)
    requires Ok(code, s)
    ensures Ok(code, r) && s.next <= r.next && r.back.immediate == s.back.immediate
    ensures r.back.immediate2 == s.back.immediate2
  {
    if s.back.displacement.got then s else DispS(code, GetSibS(code, s))
  }

  // --- Immediates --------------------------------------------------------------------------------------------

  /** `n` bytes for the first immediate field. */
  ghost function OneS(code: Code, s: State, n: nat): (r: Tried)
    requires Ok(code, s)
    ensures Ok(code, r.s) && s.next <= r.s.next
    ensures r.s == s.(next := r.s.next,
      back := s.back.(immediate := r.s.back.immediate, immediate2 := r.s.back.immediate2))
  {
    if s.next + n > EndOf(code) then Tried(false, s)
    else
      var f := Field(code.buf[s.next..s.next + n], s.back.immediate.got, n);
      Tried(true, s.(next := s.next + n, back := s.back.(immediate := f)))
  }

  /** `n` bytes for the second field. */
  ghost function TwoS(code: Code, s: State, n: nat): (r: Tried)
    requires Ok(code, s)
    ensures Ok(code, r.s) && s.next <= r.s.next
    ensures r.s == s.(next := r.s.next,
      back := s.back.(immediate := r.s.back.immediate, immediate2 := r.s.back.immediate2))
  {
    if s.next + n > EndOf(code) then Tried(false, s)
    else
      var f := Field(code.buf[s.next..s.next + n], s.back.immediate2.got, n);
      Tried(true, s.(next := s.next + n, back := s.back.(immediate2 := f)))
  }

  /** Bytes for both fields, or just the first. */
  ghost function BothS(code: Code, s: State, n1: nat, n2: nat): (r: Tried)
    requires Ok(code, s)
    ensures Ok(code, r.s) && s.next <= r.s.next
    ensures r.s == s.(next := r.s.next,
      back := s.back.(immediate := r.s.back.immediate, immediate2 := r.s.back.immediate2))
  {
    var r := OneS(code, s, n1);
    if r.ok && n2 > 0 then TwoS(code, r.s, n2) else r
  }

  /** The same, both fields marked as decoded if they are there. */
  ghost function MarkedS(code: Code, s: State, n1: nat, n2: nat): (r: Tried)
    requires Ok(code, s)
    ensures Ok(code, r.s) && s.next <= r.s.next
    ensures r.s == s.(next := r.s.next,
      back := s.back.(immediate := r.s.back.immediate, immediate2 := r.s.back.immediate2))
  {
    var r := BothS(code, s, n1, n2);
    if !r.ok then r
    else
      var back := r.s.back;
      var one, two := back.immediate.(got := true), back.immediate2.(got := true);
      Tried(true, r.s.(back := back.(immediate := one, immediate2 := two)))
  }

  /** `__get_moffset`, `__get_immv32`, `__get_immv` and `__get_immptr`; there is no pointer with a
      64-bit offset. */
  ghost function MoffsetS(code: Code, s: State): (r: Tried)
    requires Ok(code, s)
    ensures Ok(code, r.s) && s.next <= r.s.next
    ensures r.s == s.(next := r.s.next,
      back := s.back.(immediate := r.s.back.immediate, immediate2 := r.s.back.immediate2))
  {
    if !Size(s.front.addrBytes) then Tried(false, s)
    else MarkedS(code, s, if s.front.addrBytes == 2 then 2 else 4, if s.front.addrBytes == 8 then 4 else 0)
  }

  ghost function ImmV32S(code: Code, s: State): (r: Tried)
    requires Ok(code, s)
    ensures Ok(code, r.s) && s.next <= r.s.next
    ensures r.s == s.(next := r.s.next,
      back := s.back.(immediate := r.s.back.immediate, immediate2 := r.s.back.immediate2))
  {
    if !Size(s.front.opndBytes) then Tried(false, s) else OneS(code, s, if s.front.opndBytes == 2 then 2 else 4)
  }

  ghost function ImmVS(code: Code, s: State): (r: Tried)
    requires Ok(code, s)
    ensures Ok(code, r.s) && s.next <= r.s.next
    ensures r.s == s.(next := r.s.next,
      back := s.back.(immediate := r.s.back.immediate, immediate2 := r.s.back.immediate2))
  {
    if !Size(s.front.opndBytes) then Tried(false, s)
    else MarkedS(code, s, if s.front.opndBytes == 2 then 2 else 4, if s.front.opndBytes == 8 then 4 else 0)
  }

  ghost function ImmPtrS(code: Code, s: State): (r: Tried)
    requires Ok(code, s)
    ensures Ok(code, r.s) && s.next <= r.s.next
    ensures r.s == s.(next := r.s.next,
      back := s.back.(immediate := r.s.back.immediate, immediate2 := r.s.back.immediate2))
  {
    if s.front.opndBytes != 2 && s.front.opndBytes != 4 then Tried(false, s) else MarkedS(code, s, s.front.opndBytes, 2)
  }

  /** The first immediate, by its kind. */
  ghost function FirstS(code: Code, s: State, kind: nat): (r: Tried)
    requires Ok(code, s)
    ensures Ok(code, r.s) && s.next <= r.s.next
    ensures r.s == s.(next := r.s.next,
      back := s.back.(immediate := r.s.back.immediate, immediate2 := r.s.back.immediate2))
  {
    match kind
    case 1 => OneS(code, s, 1)
    case 2 => OneS(code, s, 2)
    case 3 => OneS(code, s, 4)
    case 4 => BothS(code, s, 4, 4)
    case 5 => ImmPtrS(code, s)
    case 6 => ImmV32S(code, s)
    case 7 => ImmVS(code, s)
    case _ => Tried(false, s)
  }

  /** The immediates; a second one after an immediate in two parts takes the place of the second part. */
  ghost function ImmS(code: Code, s: State): (r: Tried)
    requires Ok(code, s)
    ensures Ok(code, r.s) && s.next <= r.s.next
    ensures r.s == s.(next := r.s.next,
      back := s.back.(immediate := r.s.back.immediate, immediate2 := r.s.back.immediate2))
  {
    if s.attr.Has(Moffset) then MoffsetS(code, s)
    else if s.attr.Imm() == 0 then Tried(true, s)
    else
      var r := FirstS(code, s, s.attr.Imm());
      if r.ok && s.attr.Has(SecondImm) then TwoS(code, r.s, 1) else r
  }

  /** `insn_get_immediate` */
  ghost function GetImmS(code: Code, s: State): (r: State)
    requires Ok(code, s)
    ensures Ok(code, r) && s.next <= r.next
  {
    if s.back.immediate.got then s
    else
      var r := ImmS(code, GetDispS(code, s));
      if r.ok then r.s.(back := r.s.back.(immediate := r.s.back.immediate.(got := true))) else r.s
  }

  /** `insn_complete` */
  predicate Complete(s: State) {
    s.opcode.got && s.back.modrm.got && s.back.sib.got && s.back.displacement.got && s.back.immediate.got
  }
}
