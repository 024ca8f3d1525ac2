/** The register table: `reg_names`, `initialize_reg_name_to_int` and
    `read_reg`. Each of the 32 names is numbered by its place in the table. */
module Registers {

  const REG_NAMES: seq<string> := [
    "$zero", "$at", "$v0", "$v1", "$a0", "$a1", "$a2",
    "$a3",   "$t0", "$t1", "$t2", "$t3", "$t4", "$t5",
    "$t6",   "$t7", "$s0", "$s1", "$s2", "$s3", "$s4",
    "$s5",   "$s6", "$s7", "$t8", "$t9", "$k0", "$k1",
    "$gp",   "$sp", "$fp", "$ra"]

  /** One entry per register (32 of them), taken from the table itself. */
  const NUMBER_OF_REGISTERS := |REG_NAMES|

  /** The map `initialize_reg_name_to_int` has built after its first k
      iterations over `names`: name i is mapped to i. */
  function IndexMap(names: seq<string>, k: nat): map<string, int>
    requires k <= |names|
  {
    if k == 0 then map[] else IndexMap(names, k - 1)[names[k - 1] := k - 1]
  }

  /** The complete register table. */
  function RegisterTable(): map<string, int> {
    IndexMap(REG_NAMES, NUMBER_OF_REGISTERS)
  }

  /** `read_reg`: `map::operator[]` yields 0 for a name not in the table. */
  function ReadReg(regs: map<string, int>, s: string): int {
    if s in regs then regs[s] else 0
  }

  /** The 32 names are pairwise distinct, and all begin with `$`. */
  lemma NamesDistinct()
    ensures |REG_NAMES| == NUMBER_OF_REGISTERS
    ensures Distinct(REG_NAMES)
    ensures forall i :: 0 <= i < |REG_NAMES| ==> |REG_NAMES[i]| > 1 && REG_NAMES[i][0] == '$'
  {
    forall i, j | 0 <= i < j < NUMBER_OF_REGISTERS
      ensures REG_NAMES[i] != REG_NAMES[j]
    {
      if i < 2 {
        NamesDistinctFrom0();
      } else if i < 4 {
        NamesDistinctFrom2();
      } else if i < 6 {
        NamesDistinctFrom4();
      } else if i < 8 {
        NamesDistinctFrom6();
      } else if i < 12 {
        NamesDistinctFrom8();
      } else if i < 16 {
        NamesDistinctFrom12();
      } else if i < 20 {
        NamesDistinctFrom16();
      } else if i < 24 {
        NamesDistinctFrom20();
      } else if i < 28 {
        NamesDistinctFrom24();
      } else if i < 32 {
        NamesDistinctFrom28();
      }
    }
  }

  // Distinctness checked a few rows at a time.

  lemma NamesDistinctFrom0()
    ensures forall i, j :: 0 <= i < 2 && i < j < NUMBER_OF_REGISTERS ==> REG_NAMES[i] != REG_NAMES[j]
  {
  }

  lemma NamesDistinctFrom2()
    ensures forall i, j :: 2 <= i < 4 && i < j < NUMBER_OF_REGISTERS ==> REG_NAMES[i] != REG_NAMES[j]
  {
  }

  lemma NamesDistinctFrom4()
    ensures forall i, j :: 4 <= i < 6 && i < j < NUMBER_OF_REGISTERS ==> REG_NAMES[i] != REG_NAMES[j]
  {
  }

  lemma NamesDistinctFrom6()
    ensures forall i, j :: 6 <= i < 8 && i < j < NUMBER_OF_REGISTERS ==> REG_NAMES[i] != REG_NAMES[j]
  {
  }

  lemma NamesDistinctFrom8()
    ensures forall i, j :: 8 <= i < 12 && i < j < NUMBER_OF_REGISTERS ==> REG_NAMES[i] != REG_NAMES[j]
  {
  }

  lemma NamesDistinctFrom12()
    ensures forall i, j :: 12 <= i < 16 && i < j < NUMBER_OF_REGISTERS ==> REG_NAMES[i] != REG_NAMES[j]
  {
  }

  lemma NamesDistinctFrom16()
    ensures forall i, j :: 16 <= i < 20 && i < j < NUMBER_OF_REGISTERS ==> REG_NAMES[i] != REG_NAMES[j]
  {
  }

  lemma NamesDistinctFrom20()
    ensures forall i, j :: 20 <= i < 24 && i < j < NUMBER_OF_REGISTERS ==> REG_NAMES[i] != REG_NAMES[j]
  {
  }

  lemma NamesDistinctFrom24()
    ensures forall i, j :: 24 <= i < 28 && i < j < NUMBER_OF_REGISTERS ==> REG_NAMES[i] != REG_NAMES[j]
  {
  }

  lemma NamesDistinctFrom28()
    ensures forall i, j :: 28 <= i < 32 && i < j < NUMBER_OF_REGISTERS ==> REG_NAMES[i] != REG_NAMES[j]
  {
  }

  predicate Distinct(names: seq<string>) {
    forall i, j :: 0 <= i < j < |names| ==> names[i] != names[j]
  }

  lemma {:induction false} IndexMapSpec(names: seq<string>, k: nat)
    requires k <= |names| && Distinct(names)
    ensures forall i :: 0 <= i < k ==> names[i] in IndexMap(names, k) && IndexMap(names, k)[names[i]] == i
    ensures forall name :: name in IndexMap(names, k) ==> exists i :: 0 <= i < k && names[i] == name
    decreases k
  {
    if k > 0 {
      IndexMapSpec(names, k - 1);
    }
  }

  /** The table is a bijection between the 32 names and 0..31: each name
      reads as its index in `reg_names`, and every entry is such a name. */
  lemma RegisterTableBijection()
    ensures forall i :: 0 <= i < NUMBER_OF_REGISTERS ==> ReadReg(RegisterTable(), REG_NAMES[i]) == i
    ensures forall name :: name in RegisterTable() ==>
      0 <= RegisterTable()[name] < NUMBER_OF_REGISTERS && REG_NAMES[RegisterTable()[name]] == name
  {
    NamesDistinct();
    IndexMapSpec(REG_NAMES, NUMBER_OF_REGISTERS);
  }

  /** `read_reg` is total: every string reads as a register number in
      0..31, the index of the name in `reg_names` when it is one, and 0
      otherwise. */
  lemma ReadRegSpec(s: string)
    ensures 0 <= ReadReg(RegisterTable(), s) < NUMBER_OF_REGISTERS
    ensures s in REG_NAMES ==> REG_NAMES[ReadReg(RegisterTable(), s)] == s
    ensures s !in REG_NAMES ==> ReadReg(RegisterTable(), s) == 0
  {
    RegisterTableBijection();
    if s !in REG_NAMES {
      UnknownRegisterIsZero(s);
    }
  }

  /** A name that is not a register reads as register 0. */
  lemma UnknownRegisterIsZero(s: string)
    requires forall i :: 0 <= i < NUMBER_OF_REGISTERS ==> REG_NAMES[i] != s
    ensures ReadReg(RegisterTable(), s) == 0
  {
    NamesDistinct();
    IndexMapSpec(REG_NAMES, NUMBER_OF_REGISTERS);
  }
}
