/** Code that ends inside a VEX or EVEX prefix: what the decoder makes of it when it scans a second time. */
module InsnCut {
  import opened Machine
  import opened InsnCode
  import opened InsnSteps
  import opened InsnRight

  /** The table has no prefix at zero, as the test for a VEX prefix relies on. */
  ghost predicate ZeroIsPlain(tables: Tables) { tables.opcode(0).Prefix() == 0 }

  /** How many bytes of the prefix are there. */
  ghost function Left(code: Code): int { EndOf(code) - VexAt(code) }

  lemma CutShort(code: Code)
    requires !ScansOnce(code)
    ensures 1 <= Left(code) <= 3 && IsVex(code.tables.opcode(code.buf[VexAt(code)]))
    ensures Left(code) >= 2 ==> code.x86_64 || Mod(code.buf[VexAt(code) + 1]) == 3
  {
  }

  // --- Scanning again --------------------------------------------------------------------------------------

  /** The prefixes `b` that a scan goes past. */
  ghost predicate Passes(code: Code, b: Byte) {
    IsLegacy(code.tables.opcode(b)) || (code.x86_64 && IsRex(code.tables.opcode(b)))
  }

  /** Nothing is left to scan. */
  lemma ScanAtEnd(code: Code, s: State)
    requires Ok(code, s) && s.next == EndOf(code)
    ensures ScanS(code, s) == s
  {
  }

  /** The address size after a prefix `b`. */
  ghost function Pass(code: Code, b: Byte, addr: nat): nat {
    if IsAddressSize(code.tables.opcode(b)) then BitXor(addr, if code.x86_64 then 12 else 6) else addr
  }

  /** Where a scan has stopped, the VEX prefix stored and its length, the address size, and whether the
      scan is complete. */
  datatype Found = Found(at: nat, vex: seq<Byte>, vn: nat, addr: nat, got: bool)

  ghost predicate Finds(f: Found, s: State) {
    && s.next == f.at && s.front.vex.bytes == f.vex && s.front.vex.nbytes == f.vn && s.front.addrBytes == f.addr
    && s.front.prefixes.got == f.got
  }

  /** A scan of the last byte of the code. */
  ghost function FindOne(code: Code, i: nat, vex: seq<Byte>, vn: nat, addr: nat): (f: Found)
    requires i + 1 == EndOf(code)
    ensures f.vex == vex && f.vn == vn && i <= f.at <= EndOf(code)
  {
    var b := code.buf[i];
    if Passes(code, b) then Found(i + 1, vex, vn, Pass(code, b, addr), false)
    else Found(i, vex, vn, addr, !IsVex(code.tables.opcode(b)))
  }

  /** The first prefix of a scan switches the address size if it is of that kind. */
  lemma FirstStep(code: Code, st: Scanning, b: Byte)
    requires st.nb == 0
    ensures Takes(st, b) && Stepped(code, st, b).nb == 1 && Stepped(code, st, b).addr == Pass(code, b, st.addr)
  {
  }

  lemma LegacyLast(code: Code, i: nat, st: Scanning)
    requires i + 1 == EndOf(code) && st.nb < 4
    ensures LegacyFrom(code, i, st) ==
      if IsLegacy(code.tables.opcode(code.buf[i])) then (i + 1, Stepped(code, st, code.buf[i])) else (i, st)
  {
  }

  lemma ScanOne(code: Code, s: State)
    requires Ok(code, s) && !s.front.prefixes.got && s.next + 1 == EndOf(code)
    ensures var r := ScanS(code, s);
      && Finds(FindOne(code, s.next, s.front.vex.bytes, s.front.vex.nbytes, s.front.addrBytes), r)
      && (r.next == s.next ==> r.front.opndBytes == s.front.opndBytes)
  {
    LegacyLast(code, s.next, Scan(s.front.prefixes.bytes, 0, s.front.opndBytes, s.front.addrBytes));
  }

  /** A scan that was not complete has reached the end, or a VEX prefix that is cut off; another one
      changes nothing. */
  ghost predicate Stuck(code: Code, s: State) {
    && s.next <= EndOf(code)
    && (s.next < EndOf(code) ==>
          && IsVex(code.tables.opcode(code.buf[s.next])) && !VexFits(code, s.next)
          && VexRead(code, s.next, s.front.vex.bytes) == s.front.vex.bytes)
  }

  lemma ReadAgain(code: Code, i: nat, vex: seq<Byte>)
    requires |vex| == 4
    ensures VexRead(code, i, VexRead(code, i, vex)) == VexRead(code, i, vex)
  {
  }

  lemma ScanStuck(code: Code, s: State)
    requires Ok(code, s)
    ensures ScanS(code, s).front.prefixes.got || Stuck(code, ScanS(code, s))
  {
    if !s.front.prefixes.got && LegacyS(code, s).ok {
      var x := RexS(code, LegacyS(code, s).s);
      ReadAgain(code, x.s.next, x.s.front.vex.bytes);
    }
  }

  lemma StuckAgain(code: Code, s: State)
    requires Ok(code, s) && !s.front.prefixes.got && Stuck(code, s)
    ensures var r := ScanS(code, s);
      && r.next == s.next && r.front.vex.bytes == s.front.vex.bytes && r.front.vex.nbytes == s.front.vex.nbytes
      && r.front.addrBytes == s.front.addrBytes && r.front.opndBytes == s.front.opndBytes && !r.front.prefixes.got
  {
  }

  /** A scan of the last two bytes. */
  ghost function FindTwo(code: Code, i: nat, vex: seq<Byte>, addr: nat): (f: Found)
    requires i + 2 == EndOf(code) && |vex| == 4
    ensures |f.vex| == 4 && i <= f.at <= EndOf(code)
  {
    var a, d := code.tables.opcode(code.buf[i]), code.buf[i + 1];
    if IsLegacy(a) then FindOne(code, i + 1, vex, 0, Pass(code, code.buf[i], addr))
    else if code.x86_64 && IsRex(a) then Found(i + 1, vex, 0, addr, !IsVex(code.tables.opcode(d)))
    else if !IsVex(a) || (!code.x86_64 && Mod(d) != 3) then Found(i, vex, 0, addr, true)
    else if IsVex3(a) || IsEvex(a) then Found(i, vex[0 := code.buf[i]][1 := d], 0, addr, false)
    else Found(i + 2, vex[0 := code.buf[i]][1 := d][2 := d % 128], 2, addr, true)
  }

  ghost predicate TwoFound(code: Code, s: State, r: State)
    requires s.next + 2 == EndOf(code)
  {
    var f := FindTwo(code, s.next, s.front.vex.bytes, s.front.addrBytes);
    && Finds(f.(addr := r.front.addrBytes), r) && (r.next < EndOf(code) ==> r.front.addrBytes == f.addr)
    && (r.next == s.next ==> r.front.opndBytes == s.front.opndBytes)
  }

  lemma ScanTwoLegacy(code: Code, s: State)
    requires Ok(code, s) && !s.front.prefixes.got && s.next + 2 == EndOf(code) && s.front.vex.nbytes == 0
    requires IsLegacy(code.tables.opcode(code.buf[s.next]))
    ensures TwoFound(code, s, ScanS(code, s))
  {
    var st := Scan(s.front.prefixes.bytes, 0, s.front.opndBytes, s.front.addrBytes);
    FirstStep(code, st, code.buf[s.next]);
    LegacyLast(code, s.next + 1, Stepped(code, st, code.buf[s.next]));
  }

  lemma ScanTwoOther(code: Code, s: State)
    requires Ok(code, s) && !s.front.prefixes.got && s.next + 2 == EndOf(code) && s.front.vex.nbytes == 0
    requires !IsLegacy(code.tables.opcode(code.buf[s.next]))
    ensures TwoFound(code, s, ScanS(code, s))
  {
  }

  lemma ScanTwo(code: Code, s: State)
    requires Ok(code, s) && !s.front.prefixes.got && s.next + 2 == EndOf(code) && s.front.vex.nbytes == 0
    ensures TwoFound(code, s, ScanS(code, s))
  {
    if IsLegacy(code.tables.opcode(code.buf[s.next])) { ScanTwoLegacy(code, s); } else { ScanTwoOther(code, s); }
  }

  /** The operand size after the prefixes before. */
  ghost function FirstOpnd(code: Code): nat {
    if RexWide(code.buf[PrefixEnd(code)..VexAt(code)]) then 8 else LegacyScan(code).opnd
  }

  /** The first scan stops at the prefix that is cut off, with as much of it stored as is there. */
  ghost predicate Stopped(code: Code, s: State) {
    && !s.front.prefixes.got && s.next == VexAt(code) && s.opcode == NONE && s.attr == Bad
    && s.front.vex.bytes == VexRead(code, VexAt(code), [0, 0, 0, 0]) && s.front.vex.nbytes == 0
    && s.front.addrBytes == AddrOf(code) && s.front.opndBytes == FirstOpnd(code)
    && s.back.modrm == s.back.sib == s.back.displacement == s.back.immediate == s.back.immediate2 == NONE
  }

  lemma FirstScanStops(code: Code, s: State)
    requires Ok(code, s) && Fresh(code, s) && !ScansOnce(code)
    ensures Stopped(code, ScanS(code, s))
  {
    FirstLegacy(code, s);
    FirstRex(code, LegacyS(code, s).s);
  }

  // --- A single byte ----------------------------------------------------------------------------------------

  /** An instruction with this attribute has nothing after its opcode. */
  ghost predicate Bare(a: Attr) { !a.Has(Modrm) && !a.Has(Moffset) && a.Imm() == 0 }

  /** The attribute of an opcode of one byte without a VEX prefix. */
  ghost function LoneAttr(code: Code): Attr
    requires VexAt(code) < EndOf(code)
  {
    PlainAttr(code.tables, [code.buf[VexAt(code)]], 0)
  }

  lemma LoneOpcode(code: Code, s: State)
    requires Ok(code, s) && Stopped(code, s) && Left(code) == 1
    ensures var r := OpcodeS(code, s);
      && r.s.next == EndOf(code) && r.s.back == s.back
      && (r.ok <==> code.tables.opcode(code.buf[VexAt(code)]).Escape() == 0)
      && (r.ok ==> r.s.attr == LoneAttr(code))
  {
    var op := code.buf[s.next];
    ScanAtEnd(code, s.(next := s.next + 1, opcode := Field([op], s.opcode.got, 1)));
  }

  // --- Two or three bytes ------------------------------------------------------------------------------------

  /** What the second scan finds after the first byte of the prefix, which was taken as the opcode. */
  ghost function Second(code: Code): (f: Found)
    requires 2 <= Left(code) <= 3
    ensures |f.vex| == 4 && VexAt(code) < f.at <= EndOf(code)
  {
    var i, vex := VexAt(code) + 1, VexRead(code, VexAt(code), [0, 0, 0, 0]);
    if Left(code) == 2 then FindOne(code, i, vex, 0, AddrOf(code)) else FindTwo(code, i, vex, AddrOf(code))
  }

  ghost predicate SecondFound(code: Code, s: State)
    requires 2 <= Left(code) <= 3
  {
    var f := Second(code);
    && Ok(code, s) && Finds(f.(addr := s.front.addrBytes), s) && (s.next < EndOf(code) ==> s.front.addrBytes == f.addr)
    && (s.next == VexAt(code) + 1 ==> s.front.opndBytes == FirstOpnd(code)) && (s.front.prefixes.got || Stuck(code, s))
    && Avx(s.front.vex.bytes)
    && s.back.modrm == s.back.sib == s.back.displacement == s.back.immediate == s.back.immediate2 == NONE
  }

  lemma ReadIsAvx(code: Code, i: nat, vex: seq<Byte>)
    requires ZeroIsPlain(code.tables) && |vex| == 4
    ensures Avx(vex) ==> Avx(VexRead(code, i, vex))
    ensures i + 1 < EndOf(code) && IsVex(code.tables.opcode(code.buf[i])) ==>
      (!code.x86_64 && Mod(code.buf[i + 1]) != 3) || Avx(VexRead(code, i, vex))
  {
  }

  lemma SecondScan(code: Code, s: State)
    requires Ok(code, s) && Stopped(code, s) && ZeroIsPlain(code.tables) && !ScansOnce(code) && Left(code) >= 2
    ensures var op := code.buf[s.next];
      Left(code) <= 3 && SecondFound(code, ScanS(code, s.(next := s.next + 1, opcode := Field([op], s.opcode.got, 1))))
  {
    CutShort(code);
    var op := code.buf[s.next];
    var s1 := s.(next := s.next + 1, opcode := Field([op], s.opcode.got, 1));
    ReadIsAvx(code, s.next, [0, 0, 0, 0]);
    ScanStuck(code, s1);
    if Left(code) == 2 { ScanOne(code, s1); } else { ScanTwo(code, s1); }
    SecondIsAvx(code);
  }

  lemma SecondIsAvx(code: Code)
    requires ZeroIsPlain(code.tables) && 2 <= Left(code) <= 3 && Avx(VexRead(code, VexAt(code), [0, 0, 0, 0]))
    ensures Avx(Second(code).vex)
  {
  }

  /** The attribute that is found for the first byte of the prefix, after a second scan. */
  ghost function CutAttr(code: Code): Attr
    requires 2 <= Left(code) <= 3
  {
    var f := Second(code);
    var a := code.tables.avx(code.buf[VexAt(code)], VexM(f.vex, f.vn), VexP(f.vex, f.vn));
    if a.Has(EvexOnly) || (!a.Has(VexOk) && a.Group() == 0) then Bad else a
  }

  lemma AvxCut(code: Code, s: State)
    requires 2 <= Left(code) <= 3 && SecondFound(code, s)
    ensures var r := AvxS(code, code.buf[VexAt(code)], s); SecondFound(code, r) && r.attr == CutAttr(code)
  {
    var m, p := VexM(s.front.vex.bytes, s.front.vex.nbytes), VexP(s.front.vex.bytes, s.front.vex.nbytes);
    if !s.front.prefixes.got { StuckAgain(code, s.(attr := code.tables.avx(code.buf[VexAt(code)], m, p))); }
  }

  lemma CutOpcode(code: Code, s: State)
    requires Ok(code, s) && Stopped(code, s) && ZeroIsPlain(code.tables) && !ScansOnce(code) && Left(code) >= 2
    ensures var r := OpcodeS(code, s); r.ok && Left(code) <= 3 && SecondFound(code, r.s) && r.s.attr == CutAttr(code)
  {
    var op := code.buf[s.next];
    SecondScan(code, s);
    AvxCut(code, ScanS(code, s.(next := s.next + 1, opcode := Field([op], s.opcode.got, 1))));
  }

  /** The attribute after the ModRM byte `e`. */
  ghost function CutGroup(code: Code, e: Byte): Attr
    requires 2 <= Left(code) <= 3
  {
    var a, f := CutAttr(code), Second(code);
    if a.Group() == 0 then a
    else
      var g := code.tables.grouped(e, VexP(f.vex, f.vn), a);
      if g.Has(VexOk) then g else Bad
  }

  /** Where the decoder is after the ModRM byte; for a group it scans again if it still has no prefixes. */
  ghost function Third(code: Code): Found
    requires 2 <= Left(code) <= 3
  {
    var f := Second(code);
    if CutAttr(code).Group() != 0 && !f.got && f.at + 2 == EndOf(code) then FindOne(code, f.at + 1, f.vex, f.vn, f.addr)
    else f.(at := f.at + 1)
  }

  lemma ThirdScan(code: Code, s: State)
    requires 2 <= Left(code) <= 3 && Ok(code, s) && CutAttr(code).Group() != 0
    requires var f := Second(code); s.next == f.at + 1 && Finds(f.(at := f.at + 1), s)
    ensures var r := ScanS(code, s);
      Finds(Third(code).(got := r.front.prefixes.got), r) && (r.front.prefixes.got || Stuck(code, r))
  {
    ScanStuck(code, s);
    if !s.front.prefixes.got {
      if s.next == EndOf(code) { ScanAtEnd(code, s); } else { ScanOne(code, s); }
    }
  }

  /** A scan after a complete or a stuck one. */
  lemma ScanIdle(code: Code, s: State)
    requires Ok(code, s) && (s.front.prefixes.got || Stuck(code, s))
    ensures var r := ScanS(code, s);
      r.next == s.next && r.front.vex.bytes == s.front.vex.bytes && r.front.addrBytes == s.front.addrBytes
  {
    if !s.front.prefixes.got { StuckAgain(code, s); }
  }

  lemma GroupCut(code: Code, s: State, mod: Byte)
    requires 2 <= Left(code) <= 3 && Ok(code, s) && Avx(s.front.vex.bytes) && s.attr == CutAttr(code)
    requires s.attr.Group() != 0
    requires var f := Second(code); s.next == f.at + 1 && Finds(f.(at := f.at + 1), s)
    ensures var r := GroupS(code, mod, s);
      r.attr == CutGroup(code, mod) && r.next == Third(code).at && r.front.addrBytes == Third(code).addr
  {
    var s1 := ScanS(code, s);
    ThirdScan(code, s);
    ScanIdle(code, s1.(attr := code.tables.grouped(mod, LastId(code.tables, PreIn(s1)), s1.attr)));
  }

  ghost function CutOpnd(code: Code, a: Attr): nat { if code.x86_64 && a.Has(Force64) then 8 else FirstOpnd(code) }

  /** The decoder counts code that ends inside a VEX prefix as a complete instruction. */
  ghost predicate CutFits(code: Code)
    requires !ScansOnce(code)
  {
    CutShort(code);
    if Left(code) == 1 then code.tables.opcode(code.buf[VexAt(code)]).Escape() == 0 && Bare(LoneAttr(code))
    else
      var a, f := CutAttr(code), Second(code);
      if !a.Has(Modrm) then RestFits(code, f.at, [], a, f.addr, CutOpnd(code, a))
      else
        f.at < EndOf(code)
        && var e := code.buf[f.at];
        RestFits(code, Third(code).at, [e], CutGroup(code, e), Third(code).addr, CutOpnd(code, CutGroup(code, e)))
  }

  /** With one byte left the operand size does not matter, and without a ModRM byte neither does the
      address size. */
  lemma SizesIdle(code: Code, i: nat, modrm: seq<Byte>, a: Attr, addr: nat, opnd: nat, addr': nat, opnd': nat)
    requires EndOf(code) <= i + 1 && (modrm != [] ==> addr == addr')
    ensures RestFits(code, i, modrm, a, addr, opnd) <==> RestFits(code, i, modrm, a, addr', opnd')
  {
  }

  lemma CutNoModrm(code: Code, s: State)
    requires 2 <= Left(code) <= 3 && SecondFound(code, s) && s.attr == CutAttr(code) && !s.attr.Has(Modrm)
    ensures var f, a := Second(code), CutAttr(code);
      AllGot(Rest(code, Marked(code, s))) <==> RestFits(code, f.at, [], a, f.addr, CutOpnd(code, a))
  {
    var m, f, a := Marked(code, s), Second(code), CutAttr(code);
    RestComplete(code, m);
    if EndOf(code) <= f.at + 1 {
      SizesIdle(code, f.at, [], a, m.front.addrBytes, m.front.opndBytes, f.addr, CutOpnd(code, a));
    }
  }

  /** The ModRM byte `e` has been read. */
  ghost predicate CutTaken(code: Code, s: State, e: Byte)
    requires 2 <= Left(code) <= 3
  {
    && s.next == Third(code).at && s.front.addrBytes == Third(code).addr && s.attr == CutGroup(code, e)
    && s.back.modrm.bytes == [e] && s.back.sib == s.back.displacement == s.back.immediate == s.back.immediate2 == NONE
  }

  lemma CutModrm(code: Code, s: State)
    requires 2 <= Left(code) <= 3 && SecondFound(code, s) && s.attr == CutAttr(code) && s.attr.Has(Modrm)
    ensures var r, f := ModrmS(code, s), Second(code);
      (r.ok <==> f.at < EndOf(code)) && (r.ok ==> CutTaken(code, r.s, code.buf[f.at]))
  {
    if s.next < EndOf(code) {
      var mod, s1 := code.buf[s.next], TakenModrm(code, s);
      if s.attr.Group() != 0 { GroupCut(code, s1, mod); }
    }
  }

  lemma CutWithModrm(code: Code, s: State, e: Byte)
    requires 2 <= Left(code) <= 3 && Ok(code, s) && CutTaken(code, s, e)
    requires Second(code).at < EndOf(code)
    ensures AllGot(Rest(code, Marked(code, s))) <==>
      RestFits(code, Third(code).at, [e], CutGroup(code, e), Third(code).addr, CutOpnd(code, CutGroup(code, e)))
  {
    var m, t, a := Marked(code, s), Third(code), CutGroup(code, e);
    RestComplete(code, m);
    SizesIdle(code, t.at, [e], a, m.front.addrBytes, m.front.opndBytes, t.addr, CutOpnd(code, a));
  }

  // --- The whole decoder ---------------------------------------------------------------------------------------

  lemma RestOf(code: Code, s: State)
    requires Ok(code, s) && Fresh(code, s)
    ensures GetImmS(code, s) == Rest(code, GetModrmS(code, s))
  {
  }

  ghost function Opened(code: Code, s: State): (r: State)
    requires Ok(code, s)
    ensures Ok(code, r)
  {
    var o := OpcodeS(code, s);
    if o.ok then o.s.(opcode := o.s.opcode.(got := true)) else o.s
  }

  /** The stages from the ModRM byte on are complete after the opcode. */
  ghost predicate Ends(code: Code, s: State)
    requires Ok(code, s)
  {
    var m := ModrmS(code, s);
    s.opcode.got && m.ok && AllGot(Rest(code, Marked(code, m.s)))
  }

  lemma CompleteIs(code: Code, s: State)
    requires Ok(code, s) && Fresh(code, s)
    ensures Complete(GetImmS(code, s)) <==> Ends(code, Opened(code, ScanS(code, s)))
  {
    RestOf(code, s);
    ModrmIs(code, s);
    CompleteEnds(code, Opened(code, ScanS(code, s)), GetModrmS(code, s));
  }

  lemma ModrmIs(code: Code, s: State)
    requires Ok(code, s) && Fresh(code, s)
    ensures var o := Opened(code, ScanS(code, s));
      && !o.back.modrm.got && var r := ModrmS(code, o);
      GetModrmS(code, s) == if r.ok then Marked(code, r.s) else r.s
  {
  }

  lemma CompleteEnds(code: Code, o: State, m: State)
    requires Ok(code, o) && Ok(code, m) && !o.back.modrm.got
    requires m == (var r := ModrmS(code, o); if r.ok then Marked(code, r.s) else r.s)
    ensures Complete(Rest(code, m)) <==> Ends(code, o)
  {
  }

  lemma CutLone(code: Code, s: State)
    requires Ok(code, s) && Stopped(code, s) && !ScansOnce(code) && Left(code) == 1
    ensures Ends(code, Opened(code, s)) <==> CutFits(code)
  {
    LoneOpcode(code, s);
    LoneEnds(code, Opened(code, s));
  }

  lemma LoneEnds(code: Code, o: State)
    requires Ok(code, o) && o.next == EndOf(code)
    requires o.back.modrm == o.back.sib == o.back.displacement == o.back.immediate == o.back.immediate2 == NONE
    ensures Ends(code, o) <==> o.opcode.got && Bare(o.attr)
  {
    if !o.attr.Has(Modrm) { RestComplete(code, Marked(code, o)); }
  }

  lemma CutLong(code: Code, s: State)
    requires Ok(code, s) && Stopped(code, s) && ZeroIsPlain(code.tables) && !ScansOnce(code) && Left(code) >= 2
    ensures Ends(code, Opened(code, s)) <==> CutFits(code)
  {
    CutShort(code);
    CutOpcode(code, s);
    LongEnds(code, Opened(code, s));
  }

  lemma LongEnds(code: Code, o: State)
    requires !ScansOnce(code) && 2 <= Left(code) <= 3 && SecondFound(code, o) && o.attr == CutAttr(code) && o.opcode.got
    ensures Ends(code, o) <==> CutFits(code)
  {
    if o.attr.Has(Modrm) {
      CutModrm(code, o);
      if Second(code).at < EndOf(code) { CutWithModrm(code, ModrmS(code, o).s, code.buf[Second(code).at]); }
    } else {
      CutNoModrm(code, o);
    }
  }

  /** The decoder on a new instruction whose code ends inside a VEX prefix: it counts as complete exactly
      if the bytes after the first one happen to make up an instruction for it. */
  lemma CutComplete(code: Code, s: State)
    requires Ok(code, s) && Fresh(code, s) && ZeroIsPlain(code.tables) && !ScansOnce(code)
    ensures Complete(GetImmS(code, s)) <==> CutFits(code)
  {
    CutShort(code);
    FirstScanStops(code, s);
    CompleteIs(code, s);
    if Left(code) == 1 { CutLone(code, ScanS(code, s)); } else { CutLong(code, ScanS(code, s)); }
  }

  // --- What this means for the shipped opcode map ---------------------------------------------------------------

  /** A prefix cut off after its first byte is not taken for an instruction if, as in the shipped map,
      that byte asks for a ModRM byte when it is an opcode. */
  lemma CutAfterOne(code: Code)
    requires !ScansOnce(code) && Left(code) == 1
    requires var a := code.tables.opcode(code.buf[VexAt(code)]); a.Has(Modrm) && !a.Has(VexOnly) && !a.Has(EvexOnly)
    ensures !CutFits(code)
  {
  }

  /** One cut off after its second byte is, if the byte is no VEX opcode without a mandatory prefix. */
  lemma CutAfterTwo(code: Code)
    requires !ScansOnce(code) && Left(code) == 2 && CutAttr(code) == Bad
    ensures CutFits(code)
  {
  }

  /** Two bytes of a VEX prefix of three: C4 E1. */
  function CutExample(): Code {
    var tables := Tables(b => if b == 0xC4 then Attr(14, 0, 0, 0, {Modrm}) else Attr(0, 0, 0, 0, {}),
                         (_, _, a) => a, (_, _, a) => a, (_, _, _) => Bad);
    Code([0xC4, 0xE1], true, tables)
  }

  lemma CutSimple(code: Code)
    requires |code.buf| == 2 && code.x86_64 && IsVex3(code.tables.opcode(code.buf[0]))
    ensures VexAt(code) == 0 && !ScansOnce(code) && Left(code) == 2
  {
    assert LegacyFrom(code, 0, Begun(code)) == (0, Begun(code));
  }

  lemma CutExampleIs()
    ensures ZeroIsPlain(CutExample().tables) && !ScansOnce(CutExample()) && CutFits(CutExample())
  {
    CutSimple(CutExample());
    CutAfterTwo(CutExample());
  }
}
