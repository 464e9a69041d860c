/** Looking for a word on the kernel command line. */
module Cmdline {
  import opened Machine

  datatype State = WordStart | WordCmp | WordSkip

  datatype CmdLine = NoLine | Line(text: seq<Byte>)

  /** `myisspace`; the terminator counts as one. */
  predicate IsSpace(c: Byte) { c <= 32 }

  /** A blank or a control character ends a word. */
  ghost predicate Blank(c: Byte) { c as char <= ' ' }

  /** A word starts at `i`: the line does, or the byte before is a space. */
  ghost predicate Starts(s: seq<Byte>, i: nat)
    requires i <= |s|
  {
    i == 0 || Blank(s[i - 1])
  }

  /** `option` stands at `i` as a whole word, and the space or terminator after it is among the
      first `max` bytes and not behind a terminator. */
  ghost predicate WordAt(s: seq<Byte>, max: int, option: seq<Byte>, i: nat) {
    && option != [] && i + |option| < |s| && i + |option| < max
    && Starts(s, i) && s[i..i + |option|] == option && Blank(s[i + |option|])
    && forall k :: 0 <= k < i + |option| ==> s[k] != 0
  }

  /** For an option that is a word, not several. */
  ghost predicate NoWordBelow(s: seq<Byte>, max: int, option: seq<Byte>, n: nat) {
    IsWord(option) ==> forall i :: 0 <= i < n ==> !WordAt(s, max, option, i)
  }

  /** Where the machine stands after `pos` bytes: between words, inside a word that agrees with
      the option so far, or inside one that does not. */
  ghost predicate Reached(s: seq<Byte>, max: int, option: seq<Byte>, pos: nat, state: State, start: nat) {
    && pos <= |s| && (forall k :: 0 <= k < pos ==> s[k] != 0)
    && match state
       case WordStart => Starts(s, pos) && NoWordBelow(s, max, option, pos)
       case WordCmp =>
         && start < pos && pos - start <= |option| && Starts(s, start) && s[start..pos] == option[..pos - start]
         && NoWordBelow(s, max, option, start)
       case WordSkip => pos > 0 && !IsSpace(s[pos - 1]) && NoWordBelow(s, max, option, pos)
  }

  ghost predicate IsWord(option: seq<Byte>) { forall k :: 0 <= k < |option| ==> !Blank(option[k]) }

  /** Inside a word that agrees so far no other word starts. */
  lemma NoStartInside(s: seq<Byte>, max: int, option: seq<Byte>, start: nat, pos: nat)
    requires IsWord(option) && start < pos <= |s| && pos - start <= |option| && s[start..pos] == option[..pos - start]
    ensures forall i :: start < i <= pos ==> !Starts(s, i)
  {
    forall i | start < i <= pos
      ensures !Starts(s, i)
    {
      assert s[i - 1] == s[start..pos][i - 1 - start] == option[i - 1 - start];
    }
  }

  lemma NoWordInside(s: seq<Byte>, max: int, option: seq<Byte>, start: nat, pos: nat)
    requires start < pos <= |s| && pos - start <= |option| && s[start..pos] == option[..pos - start]
    requires NoWordBelow(s, max, option, start) && !WordAt(s, max, option, start)
    ensures NoWordBelow(s, max, option, pos + 1)
  {
    if IsWord(option) { NoStartInside(s, max, option, start, pos); }
  }

  /** A differing byte, or a longer word, rules out the word that started at `start`. */
  lemma Differs(s: seq<Byte>, max: int, option: seq<Byte>, start: nat, pos: nat)
    requires start <= pos < |s| && pos - start <= |option|
    requires if pos - start == |option| then !IsSpace(s[pos]) else s[pos] != option[pos - start]
    ensures !WordAt(s, max, option, start)
  {
    assert pos - start < |option| && start + |option| <= |s| ==> s[start..start + |option|][pos - start] == s[pos];
  }

  /** At the terminator, or at the end of what may be read, an unfinished word is no match, and
      neither is anything after it. */
  lemma NothingLeft(s: seq<Byte>, max: int, option: seq<Byte>, pos: nat, state: State, start: nat)
    requires Reached(s, max, option, pos, state, start)
    requires (pos < |s| && s[pos] == 0 && (state == WordCmp ==> pos - start < |option|)) || pos >= max || pos >= |s|
    ensures IsWord(option) ==> forall i :: !WordAt(s, max, option, i)
  {
    if IsWord(option) && state == WordCmp { NoStartInside(s, max, option, start, pos); }
  }

  /** The line can be read up to its terminator, or for `max` bytes. */
  ghost predicate Readable(s: seq<Byte>, max: int) { max <= |s| || 0 in s }

  /** The transitions on a byte other than a terminator that ends the search. */
  lemma Skipped(s: seq<Byte>, max: int, option: seq<Byte>, pos: nat, state: State, start: nat)
    requires Reached(s, max, option, pos, state, start) && pos < |s| && s[pos] != 0
    requires state == WordCmp ==> (if pos - start == |option| then !IsSpace(s[pos]) else s[pos] != option[pos - start])
    requires state == WordStart ==> IsSpace(s[pos]) || option == [] || s[pos] != option[0]
    ensures Reached(s, max, option, pos + 1, if IsSpace(s[pos]) then WordStart else WordSkip, 0)
  {
    if state == WordCmp {
      Differs(s, max, option, start, pos);
      NoWordInside(s, max, option, start, pos);
    } else if state == WordStart {
      if option != [] && IsWord(option) { Differs(s, max, option, pos, pos); }
    }
  }

  lemma Agrees(s: seq<Byte>, max: int, option: seq<Byte>, pos: nat, state: State, start: nat)
    requires Reached(s, max, option, pos, state, start) && pos < |s| && s[pos] != 0 && state != WordSkip
    requires var from := if state == WordStart then pos else start;
      pos - from < |option| && s[pos] == option[pos - from]
    ensures Reached(s, max, option, pos + 1, WordCmp, if state == WordStart then pos else start)
  {
    var from := if state == WordStart then pos else start;
    assert s[from..pos + 1] == s[from..pos] + [s[pos]];
    assert option[..pos + 1 - from] == option[..pos - from] + [option[pos - from]];
  }

  lemma Found(s: seq<Byte>, max: int, option: seq<Byte>, pos: nat, start: nat)
    requires Reached(s, max, option, pos, WordCmp, start) && pos < |s| && pos < max && pos - start == |option|
    requires IsSpace(s[pos])
    ensures WordAt(s, max, option, start)
  {
    assert option[..pos - start] == option;
  }

  /** `__cmdline_find_option_bool`: a place, counted from one, where the option stands between
      spaces; for an option without spaces the first one, and zero only if there is none. */
  method FindOption(cmdline: CmdLine, max: int, option: seq<Byte>) returns (r: int)
    requires cmdline.Line? ==> Readable(cmdline.text, max)
    ensures cmdline.NoLine? <==> r < 0
    ensures cmdline.NoLine? ==> r == -1
    ensures cmdline.Line? && r > 0 ==> WordAt(cmdline.text, max, option, r - 1)
    ensures cmdline.Line? && IsWord(option) ==>
      if r == 0 then forall i :: !WordAt(cmdline.text, max, option, i)
      else NoWordBelow(cmdline.text, max, option, r - 1)
  {
    if cmdline.NoLine? { return -1; }
    var s := cmdline.text;
    var pos, wstart, opptr := 0, 0, 0;
    var state := WordStart;
    ghost var start: nat := 0;
    while pos < max
      invariant 0 <= pos && Reached(s, max, option, pos, state, start)
      invariant state == WordCmp ==> wstart == start + 1 && opptr == pos - start
    {
      MoreToRead(s, max, option, pos, state, start);
      ghost var p, st := pos, state;
      var c := s[pos];
      pos := pos + 1;
      if state == WordStart {
        if c == 0 {
          NothingLeft(s, max, option, p, st, start);
          return 0;
        }
        if IsSpace(c) {
          Skipped(s, max, option, p, st, start);
          continue;
        }
        state, opptr, wstart := WordCmp, 0, pos;
      }
      if state == WordCmp {
        ghost var from := if st == WordStart then p else start;
        if opptr == |option| {
          if c == 0 || IsSpace(c) {
            Found(s, max, option, p, start);
            return wstart;
          }
        } else if c == 0 {
          NothingLeft(s, max, option, p, st, start);
          return 0;
        } else {
          opptr := opptr + 1;
          if c == option[opptr - 1] {
            Agrees(s, max, option, p, st, start);
            start := from;
            continue;
          }
        }
        state := WordSkip;
      }
      if c == 0 {
        NothingLeft(s, max, option, p, st, start);
        return 0;
      }
      Skipped(s, max, option, p, st, start);
      if IsSpace(c) { state := WordStart; }
      start := 0;
    }
    NothingLeft(s, max, option, pos, state, start);
    return 0;
  }

  lemma MoreToRead(s: seq<Byte>, max: int, option: seq<Byte>, pos: nat, state: State, start: nat)
    requires Reached(s, max, option, pos, state, start) && Readable(s, max) && pos < max
    ensures pos < |s|
  {
  }
}
