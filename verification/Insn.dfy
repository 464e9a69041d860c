/** The x86 instruction decoder: fields taken one after the other from a bounded buffer. */
module Insn {
  import opened Machine
  import opened InsnCode
  import opened InsnSteps
  import opened InsnRight
  import opened InsnCut

  // --- Reading prefixes ------------------------------------------------------------------------------

  method Find(s: seq<Byte>, n: nat, b: Byte) returns (found: bool)
    requires n <= |s|
    ensures found <==> b in s[..n]
  {
    found := false;
    for i := 0 to n
      invariant found <==> b in s[..i]
    {
      if s[i] == b { found := true; }
    }
  }

  method Replaced(s: seq<Byte>, n: nat, x: Byte, y: Byte) returns (r: seq<Byte>)
    requires n <= |s| && x != y
    ensures |r| == |s| && forall i :: 0 <= i < |s| ==> r[i] == if i < n && s[i] == x then y else s[i]
  {
    r := s;
    for i := 0 to n
      invariant |r| == |s| && forall j :: 0 <= j < |s| ==> r[j] == if j < i && s[j] == x then y else s[j]
    {
      if r[i] == x { r := r[i := y]; }
    }
  }

  /** The prefix `b`, unless it is a fifth kind of prefix. */
  method OnePrefix(code: Code, st: Scanning, b: Byte) returns (taken: bool, st': Scanning)
    ensures taken <==> Takes(st, b)
    ensures if taken then st' == Stepped(code, st, b) else st' == st
  {
    var found := Find(st.slots, st.nb, b);
    if found { return true, st; }
    if st.nb == 4 { return false, st; }
    var a := code.tables.opcode(b);
    st' := st.(slots := st.slots[st.nb := b], nb := st.nb + 1);
    if IsAddressSize(a) {
      st' := st'.(addr := BitXor(st'.addr, if code.x86_64 then 12 else 6));
    } else if IsOperandSize(a) {
      st' := st'.(opnd := BitXor(st'.opnd, 6));
    }
    taken := true;
  }

  /** The scan over legacy prefixes from `i` on. */
  method ScanBytes(code: Code, i: nat, st0: Scanning) returns (j: nat, st: Scanning, lb: Byte)
    requires i <= EndOf(code)
    ensures (j, st) == LegacyFrom(code, i, st0) && lb == LastByte(code, i, j)
  {
    j, st, lb := i, st0, 0;
    while j < EndOf(code) && IsLegacy(code.tables.opcode(code.buf[j]))
      invariant i <= j <= EndOf(code) && LegacyFrom(code, j, st) == LegacyFrom(code, i, st0)
        && lb == LastByte(code, i, j)
    {
      var taken;
      taken, st := OnePrefix(code, st, code.buf[j]);
      if !taken { break; }
      j, lb := j + 1, code.buf[j];
    }
  }

  /** The step after the scan: the last prefix moves to the last slot. */
  method SetLast(slots: seq<Byte>, nb: nat, lb: Byte) returns (r: seq<Byte>)
    requires |slots| == 4 && nb <= 4
    ensures r == PutLast(slots, nb, lb)
  {
    r := slots;
    if lb != 0 && lb != slots[3] {
      if slots[3] != 0 { r := Replaced(slots, nb, lb, slots[3]); }
      r := r[3 := lb];
    }
  }

  /** Reads a VEX or EVEX prefix at `i` over the bytes `vex` holds; `ok` is false if the buffer ends
      in it, and `n` is its length. */
  method ReadVex(code: Code, i: nat, vex: seq<Byte>) returns (ok: bool, bytes: seq<Byte>, n: nat, wide: bool)
    requires |vex| == 4
    ensures |bytes| == 4 && bytes == VexRead(code, i, vex) && (ok <==> VexFits(code, i))
    ensures ok ==> n == VexLen(code, i) && i + n <= EndOf(code) && (wide <==> VexWide(code.x86_64, bytes, n))
  {
    var end := EndOf(code);
    bytes, n, wide := vex, 0, false;
    if i + 1 > end { return false, bytes, 0, false; }
    var b := code.buf[i];
    var a := code.tables.opcode(b);
    if !IsVex(a) { return true, bytes, 0, false; }
    if i + 2 > end { return false, bytes, 0, false; }
    var b2 := code.buf[i + 1];
    if !code.x86_64 && Mod(b2) != 3 { return true, bytes, 0, false; }
    bytes := bytes[0 := b][1 := b2];
    if IsEvex(a) {
      if i + 3 > end { return false, bytes, 0, false; }
      bytes := bytes[2 := code.buf[i + 2]];
      if i + 4 > end { return false, bytes, 0, false; }
      bytes, n, wide := bytes[3 := code.buf[i + 3]], 4, code.x86_64 && VexW(code.buf[i + 3]);
    } else if IsVex3(a) {
      if i + 3 > end { return false, bytes, 0, false; }
      bytes, n, wide := bytes[2 := code.buf[i + 2]], 3, code.x86_64 && VexW(code.buf[i + 2]);
    } else {
      bytes, n := bytes[2 := b2 % 128], 2;
    }
    ok := true;
  }

  class Insn {
    const code: Code
    var s: State
    var length: nat

    ghost predicate Valid()
      reads this
    {
      Ok(code, s)
    }

    /** `insn_init` */
    constructor (code: Code)
      ensures Valid() && this.code == code && Fresh(code, s) && length == 0
    {
      this.code, s, length := code, Start(code.x86_64), 0;
    }

    /** `validate_next` */
    predicate Has(n: nat)
      reads this
    {
      s.next + n <= EndOf(code)
    }

    // --- Prefixes ---

    /** The legacy prefixes; `ok` is false if the buffer ends in them. */
    method LegacyPrefixes() returns (ok: bool)
      requires Valid()
      modifies this
      ensures LegacyS(code, old(s)) == Tried(ok, s)
    {
      var j, st, lb := ScanBytes(code, s.next, Scan(s.front.prefixes.bytes, 0, s.front.opndBytes, s.front.addrBytes));
      ok := j < EndOf(code);
      var slots := st.slots;
      if ok { slots := SetLast(st.slots, st.nb, lb); }
      var legacy := Field(slots, s.front.prefixes.got, s.front.prefixes.nbytes + j - s.next);
      s := s.(next := j, front := s.front.(prefixes := legacy, opndBytes := st.opnd, addrBytes := st.addr));
    }

    /** The REX prefix; `ok` is false if the buffer ends before it. */
    method RexPrefix() returns (ok: bool)
      requires Valid()
      modifies this
      ensures RexS(code, old(s)) == Tried(ok, s)
    {
      if code.x86_64 {
        if !Has(1) { return false; }
        var b := code.buf[s.next];
        if IsRex(code.tables.opcode(b)) {
          s := s.(next := s.next + 1, front := s.front.(rex := Field([b], s.front.rex.got, 1)));
          if RexW(b) { s := s.(front := s.front.(opndBytes := 8)); }
        }
      }
      s := s.(front := s.front.(rex := s.front.rex.(got := true)));
      ok := true;
    }

    /** The VEX or EVEX prefix; `ok` is false if the buffer ends in it. */
    method VexPrefix() returns (ok: bool)
      requires Valid()
      modifies this
      ensures VexS(code, old(s)) == Tried(ok, s)
    {
      var bytes, n, wide;
      ok, bytes, n, wide := ReadVex(code, s.next, s.front.vex.bytes);
      s := s.(front := s.front.(vex := s.front.vex.(bytes := bytes)));
      if ok {
        if n > 0 {
          s := s.(next := s.next + n, front := s.front.(vex := s.front.vex.(nbytes := n)));
          if wide { s := s.(front := s.front.(opndBytes := 8)); }
        }
        s := s.(front := s.front.(vex := s.front.vex.(got := true)));
      }
    }

    /** `insn_get_prefixes` */
    method GetPrefixes()
      requires Valid()
      modifies this
      ensures Valid() && s == ScanS(code, old(s)) && (Fresh(code, old(s)) ==> AfterFirstScan(code, s))
    {
      if Fresh(code, s) { FirstScan(code, s); }
      if s.front.prefixes.got { return; }
      var ok := LegacyPrefixes();
      if ok { ok := RexPrefix(); }
      if ok { ok := VexPrefix(); }
      if ok { s := s.(front := s.front.(prefixes := s.front.prefixes.(got := true))); }
    }

    /** `insn_is_avx`; the inline helpers scan the prefixes again if the first scan did not complete. */
    method IsAvx() returns (r: bool)
      requires Valid()
      modifies this
      ensures s == ScanS(code, old(s)) && (r <==> Avx(s.front.vex.bytes))
    {
      if !s.front.prefixes.got { GetPrefixes(); }
      r := Avx(s.front.vex.bytes);
    }

    /** `insn_last_prefix_id` */
    method LastPrefixId() returns (id: nat)
      requires Valid()
      modifies this
      ensures s == ScanS(code, old(s)) && id == LastId(code.tables, PreIn(s))
    {
      var avx := IsAvx();
      if avx { return VexP(s.front.vex.bytes, s.front.vex.nbytes); }
      if s.front.prefixes.bytes[3] != 0 { return LastPrefixOf(code.tables.opcode(s.front.prefixes.bytes[3])); }
      id := 0;
    }

    // --- Opcode ---

    /** The attribute of an opcode after a VEX prefix. */
    method AvxAttribute(op: Byte)
      requires Valid()
      modifies this
      ensures s == AvxS(code, op, old(s))
    {
      var m, p := VexM(s.front.vex.bytes, s.front.vex.nbytes), VexP(s.front.vex.bytes, s.front.vex.nbytes);
      s := s.(attr := code.tables.avx(op, m, p));
      var evex := true;
      if s.attr.Has(EvexOnly) {
        if !s.front.prefixes.got { GetPrefixes(); }
        evex := s.front.vex.nbytes == 4;
      }
      if (s.attr.Has(EvexOnly) && !evex) || (!s.attr.Has(VexOk) && s.attr.Group() == 0) { s := s.(attr := Bad); }
    }

    method OneEscape()
      requires Valid() && Has(1)
      modifies this
      ensures s == EscapeS(code, old(s))
    {
      var op := code.buf[s.next];
      s := s.(next := s.next + 1, opcode := Field(s.opcode.bytes + [op], s.opcode.got, s.opcode.nbytes + 1));
      var last := LastPrefixId();
      s := s.(attr := code.tables.escaped(op, last, s.attr));
    }

    /** The opcodes after a first one; `ok` is false if the buffer ends in escapes. */
    method Escapes() returns (ok: bool)
      requires Valid()
      modifies this
      ensures EscapesS(code, old(s)) == Tried(ok, s)
    {
      while s.attr.Escape() != 0
        invariant Valid() && EscapesS(code, s) == EscapesS(code, old(s))
        decreases EndOf(code) - s.next
      {
        if !Has(1) { return false; }
        OneEscape();
      }
      ok := true;
    }

    /** What follows the first opcode byte, and the attribute. */
    method OpcodeBytes() returns (ok: bool)
      requires Valid()
      modifies this
      ensures OpcodeS(code, old(s)) == Tried(ok, s)
    {
      if !Has(1) { return false; }
      var op := code.buf[s.next];
      s := s.(next := s.next + 1, opcode := Field([op], s.opcode.got, 1));
      var avx := IsAvx();
      if avx {
        AvxAttribute(op);
        return true;
      }
      s := s.(attr := code.tables.opcode(op));
      ok := Escapes();
      if ok && (s.attr.Has(VexOnly) || s.attr.Has(EvexOnly)) { s := s.(attr := Bad); }
    }

    /** `insn_get_opcode` */
    method GetOpcode()
      requires Valid()
      modifies this
      ensures Valid() && s == GetOpcodeS(code, old(s))
      ensures Fresh(code, old(s)) && ScansOnce(code) ==> AfterOpcode(code, s)
    {
      if Fresh(code, s) && ScansOnce(code) { FirstOpcode(code, s); }
      if s.opcode.got { return; }
      if !s.front.prefixes.got { GetPrefixes(); }
      var ok := OpcodeBytes();
      if ok { s := s.(opcode := s.opcode.(got := true)); }
    }

    // --- ModRM, SIB and displacement ---

    method GroupAttribute(mod: Byte)
      requires Valid()
      modifies this
      ensures s == GroupS(code, mod, old(s))
    {
      var id := LastPrefixId();
      s := s.(attr := code.tables.grouped(mod, id, s.attr));
      var avx := IsAvx();
      if avx && !s.attr.Has(VexOk) { s := s.(attr := Bad); }
    }

    /** The ModRM byte, if the attribute asks for one; `ok` is false if the buffer ends before it. */
    method ModrmByte() returns (ok: bool)
      requires Valid()
      modifies this
      ensures ModrmS(code, old(s)) == Tried(ok, s)
    {
      if !s.attr.Has(Modrm) { return true; }
      if !Has(1) { return false; }
      var mod := code.buf[s.next];
      s := s.(next := s.next + 1, back := s.back.(modrm := Field([mod], s.back.modrm.got, 1)));
      assert s == TakenModrm(code, old(s));
      if s.attr.Group() != 0 { GroupAttribute(mod); }
      ModrmTaken(code, old(s), s);
      ok := true;
    }

    /** `insn_get_modrm` */
    method GetModrm()
      requires Valid()
      modifies this
      ensures Valid() && s == GetModrmS(code, old(s))
      ensures Fresh(code, old(s)) && ScansOnce(code) ==> AfterModrm(code, s)
    {
      if Fresh(code, s) && ScansOnce(code) { FirstModrm(code, s); }
      if s.back.modrm.got { return; }
      if !s.opcode.got { GetOpcode(); }
      var ok := ModrmByte();
      if ok {
        if code.x86_64 && s.attr.Has(Force64) { s := s.(front := s.front.(opndBytes := 8)); }
        s := s.(back := s.back.(modrm := s.back.modrm.(got := true)));
      }
    }

    /** `insn_get_sib` */
    method GetSib()
      requires Valid()
      modifies this
      ensures Valid() && s == GetSibS(code, old(s))
      ensures Fresh(code, old(s)) && ScansOnce(code) ==> AfterSib(code, s)
    {
      if Fresh(code, s) && ScansOnce(code) { FirstSib(code, s); }
      if s.back.sib.got { return; }
      if !s.back.modrm.got { GetModrm(); }
      if HasSib(s.back.modrm.bytes, s.front.addrBytes) {
        if !Has(1) { return; }
        s := s.(next := s.next + 1, back := s.back.(sib := Field([code.buf[s.next]], s.back.sib.got, 1)));
      }
      s := s.(back := s.back.(sib := s.back.sib.(got := true)));
    }

    method DisplacementSize() returns (n: nat)
      ensures n == DispSize(s.back.modrm.bytes, s.back.sib.bytes, s.front.addrBytes)
    {
      n := 0;
      if s.back.modrm.nbytes > 0 {
        var mod, rm := Mod(s.back.modrm.bytes[0]), Rm(s.back.modrm.bytes[0]);
        var base := if s.back.sib.bytes == [] then 0 else Base(s.back.sib.bytes[0]);
        if mod == 3 {
        } else if mod == 1 {
          n := 1;
        } else if s.front.addrBytes == 2 {
          if (mod == 0 && rm == 6) || mod == 2 { n := 2; }
        } else if (mod == 0 && rm == 5) || mod == 2 || (mod == 0 && base == 5) {
          n := 4;
        }
      }
    }

    method DisplacementBytes()
      requires Valid()
      modifies this
      ensures s == DispS(code, old(s))
    {
      var n := DisplacementSize();
      if n > 0 {
        if !Has(n) { return; }
        var f := Field(code.buf[s.next..s.next + n], s.back.displacement.got, n);
        s := s.(next := s.next + n, back := s.back.(displacement := f));
      }
      s := s.(back := s.back.(displacement := s.back.displacement.(got := true)));
    }

    /** `insn_get_displacement` */
    method GetDisplacement()
      requires Valid()
      modifies this
      ensures Valid() && s == GetDispS(code, old(s))
      ensures Fresh(code, old(s)) && ScansOnce(code) ==> BeforeImmediate(code, s)
    {
      if Fresh(code, s) && ScansOnce(code) { FirstDisp(code, s); }
      if s.back.displacement.got { return; }
      if !s.back.sib.got { GetSib(); }
      DisplacementBytes();
    }

    // --- Immediates ---

    /** `n` bytes for the first immediate field; `ok` is false if there are fewer. */
    method TakeOne(n: nat) returns (ok: bool)
      requires Valid()
      modifies this
      ensures OneS(code, old(s), n) == Tried(ok, s)
    {
      if !Has(n) { return false; }
      var f := Field(code.buf[s.next..s.next + n], s.back.immediate.got, n);
      s := s.(next := s.next + n, back := s.back.(immediate := f));
      ok := true;
    }

    /** `n` bytes for the second field. */
    method TakeTwo(n: nat) returns (ok: bool)
      requires Valid()
      modifies this
      ensures TwoS(code, old(s), n) == Tried(ok, s)
    {
      if !Has(n) { return false; }
      var f := Field(code.buf[s.next..s.next + n], s.back.immediate2.got, n);
      s := s.(next := s.next + n, back := s.back.(immediate2 := f));
      ok := true;
    }

    method TakeBoth(n1: nat, n2: nat) returns (ok: bool)
      requires Valid()
      modifies this
      ensures BothS(code, old(s), n1, n2) == Tried(ok, s)
    {
      ok := TakeOne(n1);
      if ok && n2 > 0 { ok := TakeTwo(n2); }
    }

    /** One part or two, both marked as decoded if they are there. */
    method TakeMarked(n1: nat, n2: nat) returns (ok: bool)
      requires Valid()
      modifies this
      ensures MarkedS(code, old(s), n1, n2) == Tried(ok, s)
    {
      ok := TakeBoth(n1, n2);
      if ok {
        var one, two := s.back.immediate.(got := true), s.back.immediate2.(got := true);
        s := s.(back := s.back.(immediate := one, immediate2 := two));
      }
    }

    /** `__get_moffset` */
    method GetMoffset() returns (ok: bool)
      requires Valid()
      modifies this
      ensures MoffsetS(code, old(s)) == Tried(ok, s)
    {
      if s.front.addrBytes == 2 {
        ok := TakeMarked(2, 0);
      } else if s.front.addrBytes == 4 {
        ok := TakeMarked(4, 0);
      } else if s.front.addrBytes == 8 {
        ok := TakeMarked(4, 4);
      } else {
        ok := false;
      }
    }

    /** `__get_immv32` */
    method GetImmV32() returns (ok: bool)
      requires Valid()
      modifies this
      ensures ImmV32S(code, old(s)) == Tried(ok, s)
    {
      if s.front.opndBytes == 2 {
        ok := TakeOne(2);
      } else if s.front.opndBytes == 4 || s.front.opndBytes == 8 {
        ok := TakeOne(4);
      } else {
        ok := false;
      }
    }

    /** `__get_immv` */
    method GetImmV() returns (ok: bool)
      requires Valid()
      modifies this
      ensures ImmVS(code, old(s)) == Tried(ok, s)
    {
      if s.front.opndBytes == 2 {
        ok := TakeMarked(2, 0);
      } else if s.front.opndBytes == 4 {
        ok := TakeMarked(4, 0);
      } else if s.front.opndBytes == 8 {
        ok := TakeMarked(4, 4);
      } else {
        ok := false;
      }
    }

    /** `__get_immptr` */
    method GetImmPtr() returns (ok: bool)
      requires Valid()
      modifies this
      ensures ImmPtrS(code, old(s)) == Tried(ok, s)
    {
      if s.front.opndBytes == 2 {
        ok := TakeMarked(2, 2);
      } else if s.front.opndBytes == 4 {
        ok := TakeMarked(4, 2);
      } else {
        ok := false;
      }
    }

    /** The first immediate, by its kind. */
    method FirstImmediate(kind: nat) returns (ok: bool)
      requires Valid()
      modifies this
      ensures FirstS(code, old(s), kind) == Tried(ok, s)
    {
      match kind {
        case 1 => ok := TakeOne(1);
        case 2 => ok := TakeOne(2);
        case 3 => ok := TakeOne(4);
        case 4 => ok := TakeBoth(4, 4);
        case 5 => ok := GetImmPtr();
        case 6 => ok := GetImmV32();
        case 7 => ok := GetImmV();
        case _ => ok := false;
      }
    }

    method Immediates() returns (ok: bool)
      requires Valid()
      modifies this
      ensures ImmS(code, old(s)) == Tried(ok, s)
    {
      if s.attr.Has(Moffset) {
        ok := GetMoffset();
      } else if s.attr.Imm() == 0 {
        ok := true;
      } else {
        ok := FirstImmediate(s.attr.Imm());
        if ok && s.attr.Has(SecondImm) { ok := TakeTwo(1); }
      }
    }

    /** `insn_get_immediate` */
    method GetImmediate()
      requires Valid()
      modifies this
      ensures Valid() && s == GetImmS(code, old(s))
      ensures Fresh(code, old(s)) && ScansOnce(code) ==> AfterAll(code, s)
    {
      if Fresh(code, s) && ScansOnce(code) { FirstAll(code, s); }
      if s.back.immediate.got { return; }
      if !s.back.displacement.got { GetDisplacement(); }
      var ok := Immediates();
      if ok { s := s.(back := s.back.(immediate := s.back.immediate.(got := true))); }
    }

    /** `insn_get_length` */
    method GetLength()
      requires Valid()
      modifies this
      ensures Valid() && s == (if old(length) == 0 then GetImmS(code, old(s)) else old(s))
      ensures length == (if old(length) == 0 then s.next else old(length))
      ensures old(length) == 0 ==> Total(s) <= length == s.next <= MAX_INSN_SIZE && length <= |code.buf|
      ensures Fresh(code, old(s)) && old(length) == 0 && ScansOnce(code) ==>
        && AfterAll(code, s) && (length == Total(s) <==> !Overwritten(code))
        && (PartsFit(code) ==> length == InsnEnd(code))
        && (OnlyEnter(code.tables) ==> length == Total(s) && (Complete(s) <==> Whole(code)))
      ensures Fresh(code, old(s)) && old(length) == 0 && !ScansOnce(code) && ZeroIsPlain(code.tables) ==>
        (Complete(s) <==> CutFits(code))
    {
      if OnlyEnter(code.tables) { EnterWhole(code); }
      if Fresh(code, s) && !ScansOnce(code) && ZeroIsPlain(code.tables) { CutComplete(code, s); }
      if length != 0 { return; }
      if !s.back.immediate.got { GetImmediate(); }
      length := s.next;
    }
  }

  /** The length is not the sum of the field lengths here. */
  method OverwrittenLength(x86_64: bool) returns (length: nat, total: nat, complete: bool)
    ensures complete && length == 10 && total < length
  {
    var insn := new Insn(OverwrittenExample(x86_64));
    OverwrittenIs(x86_64);
    insn.GetLength();
    length, total, complete := insn.length, Total(insn.s), Complete(insn.s);
  }

  /** All fields count as decoded here, though the second immediate is missing. */
  method CutOffComplete(x86_64: bool) returns (complete: bool, length: nat, second: nat)
    ensures complete && length == 5 && second == 0 && !Whole(CutOffExample(x86_64))
  {
    var insn := new Insn(CutOffExample(x86_64));
    CutOffIs(x86_64);
    insn.GetLength();
    complete, length, second := Complete(insn.s), insn.length, insn.s.back.immediate2.nbytes;
  }

  /** The instruction counts as complete here, though the code ends inside its prefix. */
  method CutPrefixComplete() returns (complete: bool)
    ensures complete && !PrefixesFit(CutExample())
  {
    var insn := new Insn(CutExample());
    CutExampleIs();
    insn.GetLength();
    complete := Complete(insn.s);
  }
}
