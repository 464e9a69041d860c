/** The decoder on a new instruction: each field is complete exactly if it fits, and right then. */
module InsnRight {
  import opened Machine
  import opened InsnCode
  import opened InsnSteps

  // --- Prefixes ------------------------------------------------------------------------------------------

  /** The prefixes of the code have been read. */
  ghost predicate AtPrefixes(code: Code, s: State) {
    PrefixesFit(code) && s.front.prefixes.got && PreIn(s) == PreOf(code) && s.front.addrBytes == AddrOf(code)
  }

  /** The legacy prefixes of the code have been read, or what there is of them. */
  ghost predicate AtLegacy(code: Code, s: State, ok: bool) {
    && s.next == s.front.prefixes.nbytes == PrefixEnd(code) && (ok <==> PrefixEnd(code) < EndOf(code))
    && s.front.rex == NONE && s.front.vex == FOUR && !s.front.prefixes.got && Exact(s)
    && s.front.opndBytes == LegacyScan(code).opnd && s.front.addrBytes == AddrOf(code)
    && (ok ==> s.front.prefixes.bytes == SlotsOf(code))
  }

  lemma FirstLegacy(code: Code, s: State)
    requires Ok(code, s) && Fresh(code, s)
    ensures AtLegacy(code, LegacyS(code, s).s, LegacyS(code, s).ok)
  {
    assert Scan(s.front.prefixes.bytes, 0, s.front.opndBytes, s.front.addrBytes) == Begun(code);
  }

  lemma VexFromNothing(code: Code, i: nat)
    requires VexFits(code, i)
    ensures VexRead(code, i, [0, 0, 0, 0]) == VexBytes(code, i)
  {
  }

  lemma FirstRex(code: Code, s: State)
    requires Ok(code, s) && AtLegacy(code, s, true)
    ensures var x := RexS(code, s);
      && x.ok && x.s.next == VexAt(code) && x.s.front.rex.bytes == code.buf[PrefixEnd(code)..VexAt(code)] && Exact(x.s)
      && x.s.front == s.front.(rex := x.s.front.rex, opndBytes := x.s.front.opndBytes)
      && x.s.front.opndBytes == if RexWide(x.s.front.rex.bytes) then 8 else s.front.opndBytes
  {
    assert code.buf[s.next..s.next] == [] && code.buf[s.next..s.next + 1] == [code.buf[s.next]];
  }

  lemma FirstVex(code: Code, s: State)
    requires Ok(code, s) && s.next == VexAt(code) && s.front.vex == FOUR && Exact(s)
    ensures var v := VexS(code, s);
      && (v.ok <==> PrefixesFit(code)) && Exact(v.s) && (!v.ok ==> v.s.next == VexAt(code))
      && v.s.front == s.front.(vex := v.s.front.vex, opndBytes := v.s.front.opndBytes)
      && (v.ok ==>
            && v.s.next == OpcodeAt(code) && v.s.front.vex.nbytes == VexLen(code, VexAt(code))
            && v.s.front.vex.bytes == VexBytes(code, VexAt(code))
            && var wide := VexWide(code.x86_64, v.s.front.vex.bytes, v.s.front.vex.nbytes);
            v.s.front.opndBytes == if wide then 8 else s.front.opndBytes)
      && (!v.ok ==> v.s.front.opndBytes == s.front.opndBytes)
  {
    if VexFits(code, s.next) { VexFromNothing(code, s.next); }
  }

  lemma NothingLeft(code: Code)
    requires PrefixEnd(code) == EndOf(code)
    ensures !PrefixesFit(code) && VexAt(code) == EndOf(code)
  {
  }

  lemma PrefixesRight(code: Code, s: State, opnd: nat)
    requires PrefixesFit(code) && s.front.prefixes.bytes == SlotsOf(code) && s.front.prefixes.nbytes == PrefixEnd(code)
    requires s.front.rex.bytes == code.buf[PrefixEnd(code)..VexAt(code)]
    requires s.front.vex.bytes == VexBytes(code, VexAt(code)) && s.front.vex.nbytes == VexLen(code, VexAt(code))
    requires opnd == LegacyScan(code).opnd
    requires s.front.opndBytes ==
      if RexWide(s.front.rex.bytes) || VexWide(code.x86_64, s.front.vex.bytes, s.front.vex.nbytes) then 8 else opnd
    ensures PreIn(s) == PreOf(code) && s.front.opndBytes == PrefixOpnd(code)
  {
  }

  ghost predicate AfterFirstScan(code: Code, s: State) {
    && Exact(s) && Sizes(s) && (s.front.prefixes.got <==> PrefixesFit(code))
    && if PrefixesFit(code) then
         AtPrefixes(code, s) && s.front.opndBytes == PrefixOpnd(code) && s.next == OpcodeAt(code)
       else s.next == VexAt(code)
  }

  /** The first scan of the prefixes after the legacy ones. */
  lemma RestScanned(code: Code, s: State)
    requires Ok(code, s) && AtLegacy(code, s, true)
    ensures var x := RexS(code, s);
      && x.ok && var v := VexS(code, x.s);
      AfterFirstScan(code, if v.ok then v.s.(front := v.s.front.(prefixes := v.s.front.prefixes.(got := true)))
        else v.s)
  {
    LegacySizes(code);
    var x := RexS(code, s);
    FirstRex(code, s);
    FirstVex(code, x.s);
    var v := VexS(code, x.s);
    if v.ok { PrefixesRight(code, v.s, LegacyScan(code).opnd); }
  }

  /** The first scan of the prefixes. */
  lemma FirstScan(code: Code, s: State)
    requires Ok(code, s) && Fresh(code, s)
    ensures AfterFirstScan(code, ScanS(code, s))
  {
    FirstLegacy(code, s);
    if LegacyS(code, s).ok {
      RestScanned(code, LegacyS(code, s).s);
    } else {
      LegacySizes(code);
      NothingLeft(code);
    }
  }

  // --- Opcode ----------------------------------------------------------------------------------------------

  /** After a complete scan: the opcode bytes are `k` bytes from `i` on, the last that were read, and
      the attribute is theirs, with `id` as the last prefix. */
  ghost predicate OpcodeSo(code: Code, s: State, i: nat, k: nat, id: nat) {
    && s.front.prefixes.got && LastId(code.tables, PreIn(s)) == id
    && 0 < k && s.next == i + k <= EndOf(code) && s.opcode.bytes == code.buf[i..i + k]
    && s.attr == OpcodeAttr(code.tables, code.buf[i..i + k], id)
  }

  lemma OneEscape(code: Code, s: State, i: nat, k: nat, id: nat)
    requires Ok(code, s) && OpcodeSo(code, s, i, k, id) && s.next < EndOf(code)
    ensures var r := EscapeS(code, s);
      OpcodeSo(code, r, i, k + 1, id) && r.front == s.front && r.next == s.next + 1 && (Exact(s) ==> Exact(r))
  {
    OpcodeAttrMore(code.tables, code.buf[i..i + k], code.buf[i + k], id);
    assert code.buf[i..i + k + 1] == code.buf[i..i + k] + [code.buf[i + k]];
  }

  lemma {:induction false} AllEscapes(code: Code, s: State, i: nat, k: nat, id: nat)
    requires Ok(code, s) && OpcodeSo(code, s, i, k, id)
    ensures var r, n := EscapesS(code, s), OpcodeLen(code, id, i, k);
      && r.s.front == s.front && (Exact(s) ==> Exact(r.s)) && (r.ok <==> n > 0)
      && if r.ok then OpcodeSo(code, r.s, i, n, id) else r.s.next == EndOf(code)
    decreases EndOf(code) - s.next
  {
    if s.attr.Escape() != 0 && s.next < EndOf(code) {
      OneEscape(code, s, i, k, id);
      AllEscapes(code, EscapeS(code, s), i, k + 1, id);
    }
  }

  /** An opcode of `n` bytes has been read from `s` on, if `n` is not zero. */
  ghost predicate OpcodeRead(code: Code, s: State, n: nat, r: Tried)
    requires s.next + n <= EndOf(code)
  {
    && r.s.front == s.front && (s.opcode == NONE && Exact(s) ==> Exact(r.s)) && (r.ok <==> n > 0)
    && if r.ok then
         && r.s.next == s.next + n && r.s.opcode.bytes == code.buf[s.next..s.next + n] && n > 0
         && r.s.attr == OpAttr(code.tables, PreIn(s), r.s.opcode.bytes)
       else r.s.next == EndOf(code)
  }

  lemma PlainRead(code: Code, s: State, r: Tried, n: nat)
    requires s.next + n <= EndOf(code) && !Avx(s.front.vex.bytes) && r.s.front == s.front && (r.ok <==> n > 0)
    requires s.opcode == NONE && Exact(s) ==> Exact(r.s)
    requires if r.ok then OpcodeSo(code, r.s, s.next, n, LastId(code.tables, PreIn(s))) else r.s.next == EndOf(code)
    ensures var bad := r.ok && (r.s.attr.Has(VexOnly) || r.s.attr.Has(EvexOnly));
      OpcodeRead(code, s, n, if bad then r.(s := r.s.(attr := Bad)) else r)
  {
  }

  lemma PlainAfter(code: Code, s: State, op: Byte)
    requires Ok(code, s) && s.front.prefixes.got && s.next < EndOf(code) && op == code.buf[s.next]
    requires !Avx(s.front.vex.bytes)
    ensures var s1 := s.(next := s.next + 1, opcode := Field([op], s.opcode.got, 1));
      OpcodeRead(code, s, OpLenAt(code, PreIn(s), s.next), PlainS(code, op, s1))
  {
    var s1 := s.(next := s.next + 1, opcode := Field([op], s.opcode.got, 1), attr := code.tables.opcode(op));
    assert code.buf[s.next..s.next + 1] == [op];
    AllEscapes(code, s1, s.next, 1, LastId(code.tables, PreIn(s)));
    PlainRead(code, s, EscapesS(code, s1), OpLenAt(code, PreIn(s), s.next));
  }

  lemma AvxAfter(code: Code, s: State, op: Byte)
    requires Ok(code, s) && s.front.prefixes.got && s.next < EndOf(code) && op == code.buf[s.next]
    requires Avx(s.front.vex.bytes)
    ensures var s1 := s.(next := s.next + 1, opcode := Field([op], s.opcode.got, 1));
      OpcodeRead(code, s, 1, Tried(true, AvxS(code, op, s1)))
  {
    OneByteOf(code.buf, s.next);
  }

  lemma OneByteOf(buf: seq<Byte>, i: nat)
    requires i < |buf|
    ensures buf[i..i + 1] == [buf[i]]
  {
  }

  /** The opcode after complete prefixes. */
  lemma OpcodeAfter(code: Code, s: State)
    requires Ok(code, s) && s.front.prefixes.got
    ensures OpcodeRead(code, s, OpLenAt(code, PreIn(s), s.next), OpcodeS(code, s))
  {
    if s.next < EndOf(code) {
      var op := code.buf[s.next];
      if Avx(s.front.vex.bytes) { AvxAfter(code, s, op); } else { PlainAfter(code, s, op); }
    }
  }

  /** The opcode of the code has been read. */
  ghost predicate AtOpcode(code: Code, s: State) {
    AtPrefixes(code, s) && OpcodeFits(code) && s.opcode.got && s.opcode.bytes == OpsOf(code)
  }

  ghost predicate AfterOpcode(code: Code, s: State) {
    && Exact(s) && Sizes(s) && (s.opcode.got <==> OpcodeFits(code))
    && if OpcodeFits(code) then
         && AtOpcode(code, s) && s.front.opndBytes == PrefixOpnd(code) && s.attr == BaseAttr(code)
         && s.next == ModrmAt(code)
       else s.next == EndOf(code)
  }

  /** Complete prefixes, or nothing left for an opcode. */
  ghost predicate AfterScan(code: Code, s: State) {
    && Exact(s) && Sizes(s) && s.opcode == NONE && s.attr == Bad && (s.front.prefixes.got <==> PrefixesFit(code))
    && if PrefixesFit(code) then
         AtPrefixes(code, s) && s.front.opndBytes == PrefixOpnd(code) && s.next == OpcodeAt(code)
       else s.next == EndOf(code)
  }

  lemma OpcodeStage(code: Code, s: State)
    requires Ok(code, s) && AfterScan(code, s)
    ensures var r := OpcodeS(code, s);
      AfterOpcode(code, if r.ok then r.s.(opcode := r.s.opcode.(got := true)) else r.s)
  {
    if PrefixesFit(code) {
      OpcodeAfter(code, s);
      OpcodeMarked(code, s, OpcodeS(code, s));
    }
  }

  lemma OpcodeMarked(code: Code, s: State, r: Tried)
    requires AfterScan(code, s) && PrefixesFit(code) && OpcodeRead(code, s, OpLenAt(code, PreIn(s), s.next), r)
    requires !r.s.opcode.got
    ensures AfterOpcode(code, if r.ok then r.s.(opcode := r.s.opcode.(got := true)) else r.s)
  {
  }

  lemma FirstOpcode(code: Code, s: State)
    requires Ok(code, s) && Fresh(code, s) && ScansOnce(code)
    ensures AfterOpcode(code, GetOpcodeS(code, s))
  {
    FirstScan(code, s);
    OpcodeStage(code, ScanS(code, s));
  }

  // --- ModRM, SIB and displacement -------------------------------------------------------------------------

  /** The ModRM byte of the code has been read, and the attribute and the sizes are final. */
  ghost predicate AtModrm(code: Code, s: State) {
    && AtOpcode(code, s) && ModrmFits(code) && s.back.modrm.got && s.back.modrm.bytes == ModrmOf(code)
    && s.attr == AttrOf(code) && s.front.opndBytes == OpndOf(code)
  }

  /** An attempt at the ModRM byte. */
  ghost predicate ModrmRead(code: Code, s: State, r: Tried)
    requires s.next <= EndOf(code)
  {
    && r.s.front == s.front && (r.ok <==> s.next + ModrmLen(s.attr) <= EndOf(code)) && (Exact(s) ==> Exact(r.s))
    && if r.ok then
         && r.s.next == s.next + ModrmLen(s.attr) && r.s.back.modrm.bytes == code.buf[s.next..s.next + ModrmLen(s.attr)]
         && r.s.attr == ModAttr(code.tables, s.attr, PreIn(s), r.s.back.modrm.bytes)
       else r.s == s && s.next == EndOf(code)
  }

  lemma ModrmAfter(code: Code, s: State)
    requires Ok(code, s) && s.front.prefixes.got && s.back.modrm == NONE
    ensures ModrmRead(code, s, ModrmS(code, s))
  {
    assert code.buf[s.next..s.next] == [];
    if s.next < EndOf(code) { assert code.buf[s.next..s.next + 1] == [code.buf[s.next]]; }
  }

  ghost predicate AfterModrm(code: Code, s: State) {
    && Exact(s) && Sizes(s) && (s.opcode.got && s.back.modrm.got <==> ModrmFits(code))
    && if ModrmFits(code) then AtModrm(code, s) && s.next == SibAt(code) else s.next == EndOf(code)
  }

  lemma ModrmStage(code: Code, s: State)
    requires Ok(code, s) && AfterOpcode(code, s) && s.back.modrm == NONE
    ensures var r := ModrmS(code, s); AfterModrm(code, if r.ok then Marked(code, r.s) else r.s)
  {
    if OpcodeFits(code) {
      ModrmAfter(code, s);
      ModrmMarked(code, s, ModrmS(code, s));
    }
  }

  lemma ModrmMarked(code: Code, s: State, r: Tried)
    requires AfterOpcode(code, s) && OpcodeFits(code) && ModrmRead(code, s, r) && Ok(code, r.s)
    requires r.s.opcode == s.opcode && !r.s.back.modrm.got
    ensures AfterModrm(code, if r.ok then Marked(code, r.s) else r.s)
  {
  }

  lemma FirstModrm(code: Code, s: State)
    requires Ok(code, s) && Fresh(code, s) && ScansOnce(code)
    ensures AfterModrm(code, GetModrmS(code, s))
  {
    FirstOpcode(code, s);
    ModrmStage(code, GetOpcodeS(code, s));
  }

  /** The SIB byte of the code has been read. */
  ghost predicate AtSib(code: Code, s: State) {
    AtModrm(code, s) && SibFits(code) && s.back.sib.got && s.back.sib.bytes == SibOf(code)
  }

  lemma SibAfter(code: Code, s: State)
    requires Ok(code, s) && s.back.sib == NONE
    ensures var r, n := SibS(code, s), SibLen(s.back.modrm.bytes, s.front.addrBytes);
      && (r.back.sib.got <==> s.next + n <= EndOf(code)) && (Exact(s) ==> Exact(r))
      && if r.back.sib.got then r.next == s.next + n && r.back.sib.bytes == code.buf[s.next..r.next]
         else r == s && s.next == EndOf(code)
  {
    assert code.buf[s.next..s.next] == [];
    if s.next < EndOf(code) { assert code.buf[s.next..s.next + 1] == [code.buf[s.next]]; }
  }

  ghost predicate AfterSib(code: Code, s: State) {
    && Exact(s) && Sizes(s) && (s.opcode.got && s.back.modrm.got && s.back.sib.got <==> SibFits(code))
    && if SibFits(code) then AtSib(code, s) && s.next == DispAt(code) else s.next == EndOf(code)
  }

  lemma SibStage(code: Code, s: State)
    requires Ok(code, s) && AfterModrm(code, s) && s.back.sib == NONE
    ensures AfterSib(code, SibS(code, s))
  {
    SibAfter(code, s);
  }

  lemma FirstSib(code: Code, s: State)
    requires Ok(code, s) && Fresh(code, s) && ScansOnce(code)
    ensures AfterSib(code, GetSibS(code, s))
  {
    FirstModrm(code, s);
    SibStage(code, GetModrmS(code, s));
  }

  /** The displacement of the code has been read. */
  ghost predicate AtDisplacement(code: Code, s: State) {
    AtSib(code, s) && DispFits(code) && s.back.displacement.got && s.back.displacement.bytes == DispOf(code)
  }

  lemma DispAfter(code: Code, s: State)
    requires Ok(code, s) && s.back.displacement == NONE
    ensures var r, n := DispS(code, s), DispSize(s.back.modrm.bytes, s.back.sib.bytes, s.front.addrBytes);
      && (r.back.displacement.got <==> s.next + n <= EndOf(code)) && (Exact(s) ==> Exact(r))
      && if r.back.displacement.got then r.next == s.next + n && r.back.displacement.bytes == code.buf[s.next..r.next]
         else r == s && EndOf(code) < s.next + 4
  {
    assert code.buf[s.next..s.next] == [];
  }

  /** The fields up to the displacement are there, or less than four bytes are left. */
  ghost predicate BeforeImmediate(code: Code, s: State) {
    && Exact(s) && Sizes(s) && s.back.immediate == s.back.immediate2 == NONE
    && (s.opcode.got && s.back.modrm.got && s.back.sib.got && s.back.displacement.got <==> DispFits(code))
    && if DispFits(code) then AtDisplacement(code, s) && s.next == ImmAt(code) else EndOf(code) < s.next + 4
  }

  lemma DispStage(code: Code, s: State)
    requires Ok(code, s) && AfterSib(code, s) && s.back.displacement == s.back.immediate == s.back.immediate2 == NONE
    ensures BeforeImmediate(code, DispS(code, s))
  {
    DispAfter(code, s);
  }

  lemma FirstDisp(code: Code, s: State)
    requires Ok(code, s) && Fresh(code, s) && ScansOnce(code)
    ensures BeforeImmediate(code, GetDispS(code, s))
  {
    FirstSib(code, s);
    DispStage(code, GetSibS(code, s));
  }

  // --- Immediates --------------------------------------------------------------------------------------------

  /** The immediate is the `n1` bytes at `i` and the `n2` bytes after them, the last that were read. */
  ghost predicate ImmediateAt(code: Code, s: State, i: nat, n1: nat, n2: nat) {
    && s.next == i + n1 + n2 <= EndOf(code)
    && s.back.immediate.bytes == code.buf[i..i + n1] && s.back.immediate2.bytes == code.buf[i + n1..i + n1 + n2]
  }

  /** The immediate is the `n1` bytes at `i` and, after the `n2` of its second part, the byte of a second
      immediate, which is in the place of the second part. */
  ghost predicate SecondOver(code: Code, s: State, i: nat, n1: nat, n2: nat) {
    && s.next == i + n1 + n2 + 1 <= EndOf(code)
    && s.back.immediate.bytes == code.buf[i..i + n1]
    && s.back.immediate2.bytes == code.buf[i + n1 + n2..i + n1 + n2 + 1]
  }

  /** No immediate has been read. */
  ghost predicate NoImmediate(s: State) { s.back.immediate == s.back.immediate2 == NONE }

  /** An attempt at `n1` and `n2` bytes for an immediate. */
  ghost predicate PartsRead(code: Code, s: State, n1: nat, n2: nat, r: Tried) {
    && (r.ok <==> s.next + n1 + n2 <= EndOf(code)) && (Exact(s) ==> Exact(r.s))
    && (r.ok ==> ImmediateAt(code, r.s, s.next, n1, n2))
  }

  lemma BothRead(code: Code, s: State, n1: nat, n2: nat)
    requires Ok(code, s) && NoImmediate(s)
    ensures PartsRead(code, s, n1, n2, BothS(code, s, n1, n2)) && !BothS(code, s, n1, n2).s.back.immediate.got
  {
    if s.next + n1 <= EndOf(code) { assert code.buf[s.next + n1..s.next + n1] == []; }
  }

  lemma MarkedRead(code: Code, s: State, n1: nat, n2: nat)
    requires Ok(code, s) && NoImmediate(s)
    ensures var r := MarkedS(code, s, n1, n2); PartsRead(code, s, n1, n2, r) && (r.s.back.immediate.got <==> r.ok)
  {
    BothRead(code, s, n1, n2);
  }

  /** `__get_moffset`, `__get_immv32`, `__get_immv` and `__get_immptr`, each with the exact condition for
      success. */
  lemma MoffsetRead(code: Code, s: State)
    requires Ok(code, s) && NoImmediate(s)
    ensures var r, n1 := MoffsetS(code, s), if s.front.addrBytes == 2 then 2 else 4;
      var n2 := if s.front.addrBytes == 8 then 4 else 0;
      && (r.ok <==> Size(s.front.addrBytes) && s.next + n1 + n2 <= EndOf(code)) && (r.s.back.immediate.got <==> r.ok)
      && (Exact(s) ==> Exact(r.s)) && (r.ok ==> ImmediateAt(code, r.s, s.next, n1, n2))
  {
    MarkedRead(code, s, if s.front.addrBytes == 2 then 2 else 4, if s.front.addrBytes == 8 then 4 else 0);
  }

  lemma ImmV32Read(code: Code, s: State)
    requires Ok(code, s) && NoImmediate(s)
    ensures var r, n := ImmV32S(code, s), if s.front.opndBytes == 2 then 2 else 4;
      && (r.ok <==> Size(s.front.opndBytes) && s.next + n <= EndOf(code)) && !r.s.back.immediate.got
      && (Exact(s) ==> Exact(r.s)) && (r.ok ==> ImmediateAt(code, r.s, s.next, n, 0))
  {
    BothRead(code, s, if s.front.opndBytes == 2 then 2 else 4, 0);
  }

  lemma ImmVRead(code: Code, s: State)
    requires Ok(code, s) && NoImmediate(s)
    ensures var r, n1 := ImmVS(code, s), if s.front.opndBytes == 2 then 2 else 4;
      var n2 := if s.front.opndBytes == 8 then 4 else 0;
      && (r.ok <==> Size(s.front.opndBytes) && s.next + n1 + n2 <= EndOf(code)) && (r.s.back.immediate.got <==> r.ok)
      && (Exact(s) ==> Exact(r.s)) && (r.ok ==> ImmediateAt(code, r.s, s.next, n1, n2))
  {
    MarkedRead(code, s, if s.front.opndBytes == 2 then 2 else 4, if s.front.opndBytes == 8 then 4 else 0);
  }

  lemma ImmPtrRead(code: Code, s: State)
    requires Ok(code, s) && NoImmediate(s)
    ensures var r, n := ImmPtrS(code, s), if s.front.opndBytes == 2 then 2 else 4;
      && (r.ok <==> (s.front.opndBytes == 2 || s.front.opndBytes == 4) && s.next + n + 2 <= EndOf(code))
      && (r.s.back.immediate.got <==> r.ok)
      && (Exact(s) ==> Exact(r.s)) && (r.ok ==> ImmediateAt(code, r.s, s.next, n, 2))
  {
    MarkedRead(code, s, if s.front.opndBytes == 2 then 2 else 4, 2);
  }

  lemma FirstRead(code: Code, s: State, kind: nat)
    requires Ok(code, s) && NoImmediate(s)
    ensures var r, n1, n2 := FirstS(code, s, kind), ImmFirst(kind, s.front.opndBytes),
      ImmSecond(kind, s.front.opndBytes);
      && (r.ok <==>
            && 1 <= kind <= 7 && (kind >= 5 ==> Size(s.front.opndBytes)) && !(kind == 5 && s.front.opndBytes == 8)
            && s.next + n1 + n2 <= EndOf(code))
      && (r.s.back.immediate.got <==> r.ok && (kind == 5 || kind == 7))
      && (Exact(s) ==> Exact(r.s)) && (r.ok ==> ImmediateAt(code, r.s, s.next, n1, n2))
  {
    match kind {
      case 1 => BothRead(code, s, 1, 0);
      case 2 => BothRead(code, s, 2, 0);
      case 3 => BothRead(code, s, 4, 0);
      case 4 => BothRead(code, s, 4, 4);
      case 5 => ImmPtrRead(code, s);
      case 6 => ImmV32Read(code, s);
      case 7 => ImmVRead(code, s);
      case _ =>
    }
  }

  lemma SecondRead(code: Code, s: State, i: nat, n1: nat, n2: nat)
    requires Ok(code, s) && ImmediateAt(code, s, i, n1, n2)
    ensures var r := TwoS(code, s, 1);
      && (r.ok <==> i + n1 + n2 < EndOf(code)) && (if r.ok then SecondOver(code, r.s, i, n1, n2) else r.s == s)
      && (Exact(s) ==> (Exact(r.s) <==> !r.ok || n2 == 0)) && r.s.back.immediate == s.back.immediate
  {
  }

  /** What was there of the immediates at `i` has been read. */
  ghost predicate ImmediateOk(code: Code, s: State, i: nat) {
    var a, addr, opnd := s.attr, s.front.addrBytes, s.front.opndBytes;
    PartsAt(EndOf(code), i, a, addr, opnd) ==>
      if SecondAt(EndOf(code), i, a, addr, opnd) then
        SecondOver(code, s, i, FirstLen(a, addr, opnd), SecondLen(a, addr, opnd))
      else ImmediateAt(code, s, i, FirstLen(a, addr, opnd), SecondLen(a, addr, opnd))
  }

  /** The immediates: success, which fields count as decoded, and when a byte is in no field. */
  ghost predicate ImmediatesRead(code: Code, s: State, r: Tried) {
    var a, addr, opnd := s.attr, s.front.addrBytes, s.front.opndBytes;
    var parts := PartsAt(EndOf(code), s.next, a, addr, opnd);
    var second := SecondAt(EndOf(code), s.next, a, addr, opnd);
    && (r.ok <==> parts && (WithSecond(a) ==> second))
    && (r.s.back.immediate.got <==> parts && (a.Has(Moffset) || CountsAlone(a)))
    && (Exact(s) ==> (Exact(r.s) <==> !second || SecondLen(a, addr, opnd) == 0)) && ImmediateOk(code, r.s, s.next)
  }

  lemma ImmediatesAfter(code: Code, s: State)
    requires Ok(code, s) && NoImmediate(s)
    ensures ImmediatesRead(code, s, ImmS(code, s))
  {
    var i, n1, n2 := s.next, ImmFirst(s.attr.Imm(), s.front.opndBytes), ImmSecond(s.attr.Imm(), s.front.opndBytes);
    if s.attr.Has(Moffset) {
      MoffsetRead(code, s);
    } else if s.attr.Imm() == 0 {
      assert code.buf[i..i] == [];
    } else {
      FirstRead(code, s, s.attr.Imm());
      var r := FirstS(code, s, s.attr.Imm());
      if r.ok && s.attr.Has(SecondImm) { SecondRead(code, r.s, i, n1, n2); }
    }
  }

  // --- From the ModRM byte on ------------------------------------------------------------------------------

  /** The stages after the ModRM byte. */
  ghost function Rest(code: Code, s: State): (r: State)
    requires Ok(code, s)
    ensures r.opcode == s.opcode && r.back.modrm == s.back.modrm
  {
    var r := ImmS(code, DispS(code, SibS(code, s)));
    if r.ok then r.s.(back := r.s.back.(immediate := r.s.back.immediate.(got := true))) else r.s
  }

  /** After a ModRM byte `modrm`, or none, all that the instruction asks for is there from `i` on. */
  ghost predicate RestFits(code: Code, i: nat, modrm: seq<Byte>, a: Attr, addr: nat, opnd: nat) {
    var j := i + SibLen(modrm, addr);
    && j <= EndOf(code)
    && var k := j + DispSize(modrm, code.buf[i..j], addr);
    && PartsAt(EndOf(code), k, a, addr, opnd)
    && (WithSecond(a) ==> SecondAt(EndOf(code), k, a, addr, opnd) || CountsAlone(a))
  }

  ghost predicate AllGot(s: State) { s.back.sib.got && s.back.displacement.got && s.back.immediate.got }

  lemma ImmediateGot(code: Code, s: State)
    requires Ok(code, s) && NoImmediate(s)
    ensures var a, addr, opnd := s.attr, s.front.addrBytes, s.front.opndBytes;
      var r := ImmS(code, s);
      (r.ok || r.s.back.immediate.got <==>
         && PartsAt(EndOf(code), s.next, a, addr, opnd)
         && (WithSecond(a) ==> SecondAt(EndOf(code), s.next, a, addr, opnd) || CountsAlone(a)))
  {
    ImmediatesAfter(code, s);
  }

  /** In any state after the ModRM byte, the rest is complete exactly if it fits. */
  lemma RestComplete(code: Code, s: State)
    requires Ok(code, s) && s.back.sib == s.back.displacement == NONE && NoImmediate(s)
    ensures AllGot(Rest(code, s)) <==>
      RestFits(code, s.next, s.back.modrm.bytes, s.attr, s.front.addrBytes, s.front.opndBytes)
  {
    var x := SibS(code, s);
    SibAfter(code, s);
    if x.back.sib.got {
      var d := DispS(code, x);
      DispAfter(code, x);
      if d.back.displacement.got { ImmediateGot(code, d); }
    }
  }

  /** All fields of the code have been read. */
  ghost predicate Decoded(code: Code, s: State) {
    && AtDisplacement(code, s) && PartsFit(code) && s.next == InsnEnd(code)
    && s.back.immediate.bytes == ImmOf(code) && s.back.immediate2.bytes == Imm2Of(code)
  }

  lemma ImmediateIs(code: Code, s: State, i: nat)
    requires PartsAt(EndOf(code), i, s.attr, s.front.addrBytes, s.front.opndBytes) && ImmediateOk(code, s, i)
    ensures var a, addr, opnd := s.attr, s.front.addrBytes, s.front.opndBytes;
      && s.next == ImmEnd(EndOf(code), i, a, addr, opnd)
      && s.back.immediate.bytes == code.buf[i..i + FirstLen(a, addr, opnd)]
      && s.back.immediate2.bytes == code.buf[Imm2At(EndOf(code), i, a, addr, opnd)..s.next]
  {
  }

  lemma AllDecoded(code: Code, s: State)
    requires AtDisplacement(code, s) && PartsFit(code) && ImmediateOk(code, s, ImmAt(code))
    ensures Decoded(code, s)
  {
    ImmediateIs(code, s, ImmAt(code));
  }

  /** The end of decoding a new instruction, whose prefixes are scanned once. */
  ghost predicate AfterAll(code: Code, s: State) {
    && Sizes(s) && (Exact(s) <==> !Overwritten(code)) && (Complete(s) <==> Whole(code) || CutOff(code))
    && (PartsFit(code) ==> Decoded(code, s))
  }

  lemma ImmediateStage(code: Code, s: State)
    requires Ok(code, s) && BeforeImmediate(code, s)
    ensures var r := ImmS(code, s);
      AfterAll(code, if r.ok then r.s.(back := r.s.back.(immediate := r.s.back.immediate.(got := true))) else r.s)
  {
    var r := ImmS(code, s);
    ImmediatesAfter(code, s);
    if !DispFits(code) {
      TooShort(EndOf(code), s.next, s.attr, s.front.addrBytes, s.front.opndBytes);
    } else if PartsFit(code) {
      AllDecoded(code, r.s);
    }
  }

  /** The decoder on a new instruction. */
  lemma FirstAll(code: Code, s: State)
    requires Ok(code, s) && Fresh(code, s) && ScansOnce(code)
    ensures AfterAll(code, GetImmS(code, s))
  {
    FirstDisp(code, s);
    ImmediateStage(code, GetDispS(code, s));
  }
}
