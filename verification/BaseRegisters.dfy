/** The base registers beside the write path: the splitter's copy of the translation buffer's base is one base
    write behind, so the two need only agree modulo a page. */
module BaseRegisters {
  import opened Mem
  import T = Tlb

  /** The newest base, and the one that the splitter uses; 48 bits each. */
  datatype Registers = Registers(base: nat, boundCheck: nat)

  /** A mapping handed over to the translation buffer. */
  function HandOver(r: Registers, m: T.Mapping): Registers {
    if m.isBase then Registers(m.vaddr % TWO_TO_48, r.base) else r
  }

  function After(r: Registers, ms: seq<T.Mapping>): Registers
    decreases |ms|
  {
    if ms == [] then r else After(HandOver(r, ms[0]), ms[1..])
  }

  /** The addresses of the base writes. */
  function Bases(ms: seq<T.Mapping>): seq<nat> {
    if ms == [] then [] else (if ms[0].isBase then [ms[0].vaddr] else []) + Bases(ms[1..])
  }

  /** Every base so far, from the splitter's first on. */
  function History(r: Registers, ms: seq<T.Mapping>): (h: seq<nat>)
    ensures |h| >= 2
  {
    [r.boundCheck, r.base] + Bases(ms)
  }

  lemma LastTwo(a: nat, b: nat, bs: seq<nat>)
    ensures var h := [a, b] + bs;
            && h[|h| - 1] == (if bs == [] then b else bs[|bs| - 1])
            && h[|h| - 2] == if bs == [] then a else if |bs| == 1 then b else bs[|bs| - 2]
  {
  }

  /** The registers after any mappings: each base write moves the newest base on. */
  lemma {:induction false} AfterBases(r: Registers, ms: seq<T.Mapping>)
    ensures var bs := Bases(ms);
            After(r, ms)
            == if bs == [] then r
               else Registers(bs[|bs| - 1] % TWO_TO_48, if |bs| == 1 then r.base else bs[|bs| - 2] % TWO_TO_48)
    decreases |ms|
  {
    if ms != [] {
      AfterBases(HandOver(r, ms[0]), ms[1..]);
    }
  }

  /** The translation buffer holds the whole last base. */
  lemma {:induction false} LastBase(t: T.State, ms: seq<T.Mapping>)
    requires T.AcceptsAll(t, ms)
    ensures var bs := Bases(ms); T.MapAll(t, ms).base == if bs == [] then t.base else bs[|bs| - 1]
    decreases |ms|
  {
    if ms != [] {
      LastBase(T.Map(t, ms[0]), ms[1..]);
    }
  }

  /** The registers hold the last base and the one before it, in 48 bits. */
  lemma LastTwoBases(r: Registers, ms: seq<T.Mapping>)
    requires r.base < TWO_TO_48 && r.boundCheck < TWO_TO_48
    ensures var h := History(r, ms);
            After(r, ms) == Registers(h[|h| - 1] % TWO_TO_48, h[|h| - 2] % TWO_TO_48)
  {
    AfterBases(r, ms);
    LastTwo(r.boundCheck, r.base, Bases(ms));
  }

  /** Modulo a page the splitter's register is one base behind, and the translation buffer holds the last. */
  lemma OneBehind(r: Registers, t: T.State, ms: seq<T.Mapping>)
    requires T.AcceptsAll(t, ms) && OffsetIn(r.base) == OffsetIn(t.base)
    ensures var h := History(r, ms);
            && OffsetIn(After(r, ms).boundCheck) == OffsetIn(h[|h| - 2])
            && OffsetIn(T.MapAll(t, ms).base) == OffsetIn(h[|h| - 1])
            && OffsetIn(After(r, ms).base) == OffsetIn(h[|h| - 1])
  {
    var h := History(r, ms);
    AfterBases(r, ms);
    LastBase(t, ms);
    LastTwo(r.boundCheck, r.base, Bases(ms));
    OffsetOfWrap(h[|h| - 1]);
    OffsetOfWrap(h[|h| - 2]);
    hide OffsetIn, After, Bases;
  }

  /** The splitter cuts at the same page ends as the translation buffer exactly when the last two bases are congruent;
      so it always does when all of them are. */
  lemma SplitterAgrees(r: Registers, t: T.State, ms: seq<T.Mapping>)
    requires T.AcceptsAll(t, ms) && OffsetIn(r.base) == OffsetIn(t.base)
    ensures var h := History(r, ms);
            && (OffsetIn(After(r, ms).boundCheck) == OffsetIn(T.MapAll(t, ms).base)
                <==> OffsetIn(h[|h| - 2]) == OffsetIn(h[|h| - 1]))
            && ((forall i :: 0 <= i < |h| ==> OffsetIn(h[i]) == OffsetIn(h[0])) ==>
                  OffsetIn(After(r, ms).boundCheck) == OffsetIn(T.MapAll(t, ms).base))
  {
    OneBehind(r, t, ms);
  }

  class BaseRegister {
    var regBaseVaddr: nat
    var regBaseVaddrBoundCheck: nat

    constructor (base: nat, boundCheck: nat)
      ensures View() == Registers(base, boundCheck)
    {
      regBaseVaddr, regBaseVaddrBoundCheck := base, boundCheck;
    }

    function View(): Registers
      reads this
    {
      Registers(regBaseVaddr, regBaseVaddrBoundCheck)
    }

    /** One clock edge: both registers take their values from before it. */
    method PosEdge(valid: bool, ready: bool, m: T.Mapping)
      modifies this
      ensures View() == if valid && ready then HandOver(old(View()), m) else old(View())
    {
      if valid && ready && m.isBase {
        regBaseVaddr, regBaseVaddrBoundCheck := m.vaddr % TWO_TO_48, regBaseVaddr;
      }
    }
  }
}
