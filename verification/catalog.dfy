/** The instruction catalog: the parallel tables `INSTRUCTIONS` (a mnemonic
    followed by its operand roles) and `PLACE_HOLDERS` (the encoding
    template: constants, or names of operand roles), and
    `initialize_instructions`, which splits each row with the tokenizer and
    stores it under its mnemonic. */
module Catalog {
  import opened Tokenizer

  /** A deserialised catalog entry: the operand roles in source order, and
      the template fields. */
  datatype Instruction = Instruction(params: seq<string>, placeHolders: seq<string>)

  /** One row per instruction (77 of them), taken from the table itself. */
  const NUMBER_OF_INSTRUCTIONS := |INSTRUCTION_WORDS|

  /** Widths of the template fields in order; the last field of a template
      takes whatever remains of the 32 bits instead. */
  const PLACE_HOLDER_LENGTHS: seq<nat> := [6, 5, 5, 5, 5, 6]

  const INSTRUCTION_LENGTH := 32

  /** Width of the immediate of a load or store. */
  const IMM_LENGTH := 16

  /** The words of each row of `INSTRUCTIONS`, row by row (written in three
      parts). */
  const INSTRUCTION_WORDS: seq<seq<string>> := INSTRUCTION_WORDS_1 + INSTRUCTION_WORDS_2 + INSTRUCTION_WORDS_3

  const INSTRUCTION_WORDS_1: seq<seq<string>> := [
    ["div", "rs", "rt"], ["divu", "rs", "rt"], ["mult", "rs", "rt"], ["multu", "rs", "rt"],
    ["madd", "rs", "rt"], ["maddu", "rs", "rt"], ["msub", "rs", "rt"], ["msub", "rs", "rt"],
    ["teq", "rs", "rt"], ["tne", "rs", "rt"], ["tge", "rs", "rt"], ["tgeu", "rs", "rt"],
    ["tlt", "rs", "rt"], ["tltu", "rs", "rt"], ["mfhi", "rd"], ["mflo", "rd"],
    ["jr", "rs"], ["mthi", "rs"], ["mtlo", "rs"], ["addi", "rt", "rs", "imm"],
    ["addiu", "rt", "rs", "imm"], ["andi", "rt", "rs", "imm"], ["ori", "rt", "rs", "imm"], ["xori", "rt", "rs", "imm"],
    ["lui", "rt", "imm"], ["slti", "rt", "rs", "imm"]]

  const INSTRUCTION_WORDS_2: seq<seq<string>> := [
    ["sltiu", "rt", "rs", "imm"], ["teqi", "rs", "imm"], ["tnei", "rs", "imm"], ["tgei", "rs", "imm"],
    ["tgeiu", "rs", "imm"], ["tlti", "rs", "imm"], ["tltiu", "rs", "imm"], ["beq", "rs", "rt", "label"],
    ["bgez", "rs", "label"], ["bgezal", "rs", "label"], ["bgtz", "rs", "label"], ["blez", "rs", "label"],
    ["bltzal", "rs", "label"], ["bltz", "rs", "label"], ["bne", "rs", "rt", "label"], ["lb", "rt", "address"],
    ["lbu", "rt", "address"], ["lh", "rt", "address"], ["lhu", "rt", "address"], ["lw", "rt", "address"],
    ["lwl", "rt", "address"], ["lwr", "rt", "address"], ["ll", "rt", "address"], ["sb", "rt", "address"],
    ["sh", "rt", "address"], ["sw", "rt", "address"]]

  const INSTRUCTION_WORDS_3: seq<seq<string>> := [
    ["swl", "rt", "address"], ["swr", "rt", "address"], ["sc", "rt", "address"], ["add", "rd", "rs", "rt"],
    ["addu", "rd", "rs", "rt"], ["and", "rd", "rs", "rt"], ["clo", "rd", "rs"], ["clz", "rd", "rs"],
    ["mul", "rd", "rs", "rt"], ["nor", "rd", "rs", "rt"], ["or", "rd", "rs", "rt"], ["sll", "rd", "rt", "shamt"],
    ["sllv", "rd", "rt", "rs"], ["sra", "rd", "rt", "shamt"], ["srav", "rd", "rt", "rs"], ["srl", "rd", "rt", "shamt"],
    ["srlv", "rd", "rt", "rs"], ["sub", "rd", "rs", "rt"], ["subu", "rd", "rs", "rt"], ["xor", "rd", "rs", "rt"],
    ["slt", "rd", "rs", "rt"], ["sltu", "rd", "rs", "rt"], ["jalr", "rs", "rd"], ["j", "target"],
    ["jal", "target"]]

  /** The words of each row of `PLACE_HOLDERS`, row by row (written in three
      parts). */
  const PLACE_HOLDER_WORDS: seq<seq<string>> := PLACE_HOLDER_WORDS_1 + PLACE_HOLDER_WORDS_2 + PLACE_HOLDER_WORDS_3

  const PLACE_HOLDER_WORDS_1: seq<seq<string>> := [
    ["0", "rs", "rt", "0", "0x1a"], ["0", "rs", "rt", "0", "0x1b"], ["0", "rs", "rt", "0", "0x18"],
    ["0", "rs", "rt", "0", "0x19"], ["0x1c", "rs", "rt", "0", "0"], ["0x1c", "rs", "rt", "0", "1"],
    ["0x1c", "rs", "rt", "0", "4"], ["0x1c", "rs", "rt", "0", "5"], ["0", "rs", "rt", "0", "0x34"],
    ["0", "rs", "rt", "0", "0x36"], ["0", "rs", "rt", "0", "0x30"], ["0", "rs", "rt", "0", "0x31"],
    ["0", "rs", "rt", "0", "0x32"], ["0", "rs", "rt", "0", "0x33"], ["0", "0", "0", "rd", "0", "0x10"],
    ["0", "0", "0", "rd", "0", "0x12"], ["0", "rs", "0", "8"], ["0", "rs", "0", "0x11"],
    ["0", "rs", "0", "0x13"], ["8", "rs", "rt", "imm"], ["9", "rs", "rt", "imm"],
    ["0xc", "rs", "rt", "imm"], ["0xd", "rs", "rt", "imm"], ["0xe", "rs", "rt", "imm"],
    ["0xf", "0", "rt", "imm"], ["0xa", "rs", "rt", "imm"]]

  const PLACE_HOLDER_WORDS_2: seq<seq<string>> := [
    ["0xb", "rs", "rt", "imm"], ["1", "rs", "0xc", "imm"], ["1", "rs", "0xe", "imm"],
    ["1", "rs", "8", "imm"], ["1", "rs", "9", "imm"], ["1", "rs", "a", "imm"],
    ["1", "rs", "b", "imm"], ["4", "rs", "rt", "Offset"], ["1", "rs", "1", "Offset"],
    ["1", "rs", "0x11", "Offset"], ["7", "rs", "0", "Offset"], ["6", "rs", "0", "Offset"],
    ["1", "rs", "0x10", "Offset"], ["1", "rs", "0", "Offset"], ["5", "rs", "rt", "Offset"],
    ["0x20", "rs", "rt", "Offset"], ["0x24", "rs", "rt", "Offset"], ["0x21", "rs", "rt", "Offset"],
    ["0x25", "rs", "rt", "Offset"], ["0x23", "rs", "rt", "Offset"], ["0x22", "rs", "rt", "Offset"],
    ["0x26", "rs", "rt", "Offset"], ["0x30", "rs", "rt", "Offset"], ["0x28", "rs", "rt", "Offset"],
    ["0x29", "rs", "rt", "Offset"], ["0x2b", "rs", "rt", "Offset"]]

  const PLACE_HOLDER_WORDS_3: seq<seq<string>> := [
    ["0x2a", "rs", "rt", "Offset"], ["0x2e", "rs", "rt", "Offset"], ["0x38", "rs", "rt", "Offset"],
    ["0", "rs", "rt", "rd", "0", "0x20"], ["0", "rs", "rt", "rd", "0", "0x21"], ["0", "rs", "rt", "rd", "0", "0x24"],
    ["0x1c", "rs", "0", "rd", "0", "0x21"], ["0x1c", "rs", "0", "rd", "0", "0x20"], ["0x1c", "rs", "rt", "rd", "0", "2"],
    ["0", "rs", "rt", "rd", "0", "0x27"], ["0", "rs", "rt", "rd", "0", "0x25"], ["0", "rs", "rt", "rd", "shamt", "0"],
    ["0", "rs", "rt", "rd", "0", "4"], ["0", "rs", "rt", "rd", "shamt", "3"], ["0", "rs", "rt", "rd", "0", "7"],
    ["0", "rs", "rt", "rd", "shamt", "2"], ["0", "rs", "rt", "rd", "0", "6"], ["0", "rs", "rt", "rd", "0", "0x22"],
    ["0", "rs", "rt", "rd", "0", "0x23"], ["0", "rs", "rt", "rd", "0", "0x26"], ["0", "rs", "rt", "rd", "0", "0x2a"],
    ["0", "rs", "rt", "rd", "0", "0x2b"], ["0", "rs", "0", "rd", "0", "9"], ["2", "target"],
    ["3", "target"]]

  /** `INSTRUCTIONS`: each row is its words separated by single spaces. */
  const INSTRUCTIONS: seq<string> := JoinRows(INSTRUCTION_WORDS)

  /** `PLACE_HOLDERS`: each row is its words separated by single spaces. */
  const PLACE_HOLDERS: seq<string> := JoinRows(PLACE_HOLDER_WORDS)

  function JoinRows(rows: seq<seq<string>>): (texts: seq<string>)
    ensures |texts| == |rows|
  {
    if rows == [] then [] else [Join(rows[0])] + JoinRows(rows[1..])
  }

  /** Text i is row i joined by single spaces. */
  lemma {:induction false} JoinRowsAt(rows: seq<seq<string>>, i: nat)
    requires i < |rows|
    ensures JoinRows(rows)[i] == Join(rows[i])
    decreases i
  {
    if i > 0 {
      JoinRowsAt(rows[1..], i - 1);
    }
  }

  /** What the rows of the two tables look like: a mnemonic and one to three
      roles; a template of two to six fields; no word holds a blank or `#`. */
  predicate RowShape(i: nat)
    requires i < NUMBER_OF_INSTRUCTIONS
  {
    && 2 <= |INSTRUCTION_WORDS[i]| <= 4
    && 2 <= |PLACE_HOLDER_WORDS[i]| <= 6
    && AllTokens(INSTRUCTION_WORDS[i])
    && AllTokens(PLACE_HOLDER_WORDS[i])
  }

  lemma AllRowsShaped(i: nat)
    requires i < NUMBER_OF_INSTRUCTIONS
    ensures RowShape(i)
  {
    if i < 26 {
      Part1Shaped(i);
    } else if i < 52 {
      Part2Shaped(i - 26);
    } else {
      Part3Shaped(i - 52);
    }
  }

  /** Row k of one part of the two tables has the shape of `RowShape`. */
  predicate PartRowShape(words: seq<seq<string>>, places: seq<seq<string>>, k: nat)
    requires k < |words| && k < |places|
  {
    && 2 <= |words[k]| <= 4
    && 2 <= |places[k]| <= 6
    && AllTokens(words[k])
    && AllTokens(places[k])
  }

  lemma Part1Shaped(k: nat)
    requires k < 26
    ensures 0 + k < NUMBER_OF_INSTRUCTIONS && RowShape(0 + k)
  {
    assert INSTRUCTION_WORDS[0 + k] == INSTRUCTION_WORDS_1[k];
    assert PLACE_HOLDER_WORDS[0 + k] == PLACE_HOLDER_WORDS_1[k];
    if k < 4 {
      Part1ShapedFrom0(k);
    } else if k < 8 {
      Part1ShapedFrom4(k);
    } else if k < 12 {
      Part1ShapedFrom8(k);
    } else if k < 16 {
      Part1ShapedFrom12(k);
    } else if k < 20 {
      Part1ShapedFrom16(k);
    } else if k < 24 {
      Part1ShapedFrom20(k);
    } else if k < 26 {
      Part1ShapedFrom24(k);
    }
  }

  lemma Part1ShapedFrom0(k: nat)
    requires 0 <= k < 4
    ensures PartRowShape(INSTRUCTION_WORDS_1, PLACE_HOLDER_WORDS_1, k)
  {
  }

  lemma Part1ShapedFrom4(k: nat)
    requires 4 <= k < 8
    ensures PartRowShape(INSTRUCTION_WORDS_1, PLACE_HOLDER_WORDS_1, k)
  {
  }

  lemma Part1ShapedFrom8(k: nat)
    requires 8 <= k < 12
    ensures PartRowShape(INSTRUCTION_WORDS_1, PLACE_HOLDER_WORDS_1, k)
  {
  }

  lemma Part1ShapedFrom12(k: nat)
    requires 12 <= k < 16
    ensures PartRowShape(INSTRUCTION_WORDS_1, PLACE_HOLDER_WORDS_1, k)
  {
  }

  lemma Part1ShapedFrom16(k: nat)
    requires 16 <= k < 20
    ensures PartRowShape(INSTRUCTION_WORDS_1, PLACE_HOLDER_WORDS_1, k)
  {
  }

  lemma Part1ShapedFrom20(k: nat)
    requires 20 <= k < 24
    ensures PartRowShape(INSTRUCTION_WORDS_1, PLACE_HOLDER_WORDS_1, k)
  {
  }

  lemma Part1ShapedFrom24(k: nat)
    requires 24 <= k < 26
    ensures PartRowShape(INSTRUCTION_WORDS_1, PLACE_HOLDER_WORDS_1, k)
  {
  }

  lemma Part2Shaped(k: nat)
    requires k < 26
    ensures 26 + k < NUMBER_OF_INSTRUCTIONS && RowShape(26 + k)
  {
    assert INSTRUCTION_WORDS[26 + k] == INSTRUCTION_WORDS_2[k];
    assert PLACE_HOLDER_WORDS[26 + k] == PLACE_HOLDER_WORDS_2[k];
    if k < 4 {
      Part2ShapedFrom0(k);
    } else if k < 8 {
      Part2ShapedFrom4(k);
    } else if k < 12 {
      Part2ShapedFrom8(k);
    } else if k < 16 {
      Part2ShapedFrom12(k);
    } else if k < 20 {
      Part2ShapedFrom16(k);
    } else if k < 24 {
      Part2ShapedFrom20(k);
    } else if k < 26 {
      Part2ShapedFrom24(k);
    }
  }

  lemma Part2ShapedFrom0(k: nat)
    requires 0 <= k < 4
    ensures PartRowShape(INSTRUCTION_WORDS_2, PLACE_HOLDER_WORDS_2, k)
  {
  }

  lemma Part2ShapedFrom4(k: nat)
    requires 4 <= k < 8
    ensures PartRowShape(INSTRUCTION_WORDS_2, PLACE_HOLDER_WORDS_2, k)
  {
  }

  lemma Part2ShapedFrom8(k: nat)
    requires 8 <= k < 12
    ensures PartRowShape(INSTRUCTION_WORDS_2, PLACE_HOLDER_WORDS_2, k)
  {
  }

  lemma Part2ShapedFrom12(k: nat)
    requires 12 <= k < 16
    ensures PartRowShape(INSTRUCTION_WORDS_2, PLACE_HOLDER_WORDS_2, k)
  {
  }

  lemma Part2ShapedFrom16(k: nat)
    requires 16 <= k < 20
    ensures PartRowShape(INSTRUCTION_WORDS_2, PLACE_HOLDER_WORDS_2, k)
  {
  }

  lemma Part2ShapedFrom20(k: nat)
    requires 20 <= k < 24
    ensures PartRowShape(INSTRUCTION_WORDS_2, PLACE_HOLDER_WORDS_2, k)
  {
  }

  lemma Part2ShapedFrom24(k: nat)
    requires 24 <= k < 26
    ensures PartRowShape(INSTRUCTION_WORDS_2, PLACE_HOLDER_WORDS_2, k)
  {
  }

  lemma Part3Shaped(k: nat)
    requires k < 25
    ensures 52 + k < NUMBER_OF_INSTRUCTIONS && RowShape(52 + k)
  {
    assert INSTRUCTION_WORDS[52 + k] == INSTRUCTION_WORDS_3[k];
    assert PLACE_HOLDER_WORDS[52 + k] == PLACE_HOLDER_WORDS_3[k];
    if k < 4 {
      Part3ShapedFrom0(k);
    } else if k < 8 {
      Part3ShapedFrom4(k);
    } else if k < 12 {
      Part3ShapedFrom8(k);
    } else if k < 16 {
      Part3ShapedFrom12(k);
    } else if k < 20 {
      Part3ShapedFrom16(k);
    } else if k < 24 {
      Part3ShapedFrom20(k);
    } else if k < 25 {
      Part3ShapedFrom24(k);
    }
  }

  lemma Part3ShapedFrom0(k: nat)
    requires 0 <= k < 4
    ensures PartRowShape(INSTRUCTION_WORDS_3, PLACE_HOLDER_WORDS_3, k)
  {
  }

  lemma Part3ShapedFrom4(k: nat)
    requires 4 <= k < 8
    ensures PartRowShape(INSTRUCTION_WORDS_3, PLACE_HOLDER_WORDS_3, k)
  {
  }

  lemma Part3ShapedFrom8(k: nat)
    requires 8 <= k < 12
    ensures PartRowShape(INSTRUCTION_WORDS_3, PLACE_HOLDER_WORDS_3, k)
  {
  }

  lemma Part3ShapedFrom12(k: nat)
    requires 12 <= k < 16
    ensures PartRowShape(INSTRUCTION_WORDS_3, PLACE_HOLDER_WORDS_3, k)
  {
  }

  lemma Part3ShapedFrom16(k: nat)
    requires 16 <= k < 20
    ensures PartRowShape(INSTRUCTION_WORDS_3, PLACE_HOLDER_WORDS_3, k)
  {
  }

  lemma Part3ShapedFrom20(k: nat)
    requires 20 <= k < 24
    ensures PartRowShape(INSTRUCTION_WORDS_3, PLACE_HOLDER_WORDS_3, k)
  {
  }

  lemma Part3ShapedFrom24(k: nat)
    requires 24 <= k < 25
    ensures PartRowShape(INSTRUCTION_WORDS_3, PLACE_HOLDER_WORDS_3, k)
  {
  }

  /** Splitting a row of either table with the tokenizer gives back its
      words. */
  lemma RowsDeserialise(i: nat)
    requires i < NUMBER_OF_INSTRUCTIONS
    ensures Tokens(INSTRUCTIONS[i]) == INSTRUCTION_WORDS[i]
    ensures Tokens(PLACE_HOLDERS[i]) == PLACE_HOLDER_WORDS[i]
  {
    AllRowsShaped(i);
    JoinRowsAt(INSTRUCTION_WORDS, i);
    JoinRowsAt(PLACE_HOLDER_WORDS, i);
    TokensOfJoin(INSTRUCTION_WORDS[i]);
    TokensOfJoin(PLACE_HOLDER_WORDS[i]);
  }

  /** Each instruction row splits into a name and one to three roles, each
      template row into two to six fields. */
  lemma TokenCounts(i: nat)
    requires i < NUMBER_OF_INSTRUCTIONS
    ensures 2 <= |Tokens(INSTRUCTIONS[i])| <= 4 && 2 <= |Tokens(PLACE_HOLDERS[i])| <= 6
  {
    RowsDeserialise(i);
    AllRowsShaped(i);
  }

  // ---------------------------------------------------------------------
  // initialize_instructions

  /** Row i as `initialize_instructions` deserialises it: both rows are
      split, the first word is the name, the other words are the operand
      roles, and the whole template row is kept. */
  function Row(i: nat): (string, Instruction)
    requires i < NUMBER_OF_INSTRUCTIONS
  {
    TokenCounts(i);
    var params := Tokens(INSTRUCTIONS[i]);
    (params[0], Instruction(params[1..], Tokens(PLACE_HOLDERS[i])))
  }

  /** Row i holds the words of the two table rows: a name, one to three
      operand roles and a template of two to six fields. */
  lemma RowWords(i: nat)
    requires i < NUMBER_OF_INSTRUCTIONS
    ensures RowShape(i)
    ensures Row(i) == (INSTRUCTION_WORDS[i][0], Instruction(INSTRUCTION_WORDS[i][1..], PLACE_HOLDER_WORDS[i]))
    ensures 1 <= |Row(i).1.params| <= 3 && 2 <= |Row(i).1.placeHolders| <= 6
  {
    RowsDeserialise(i);
    AllRowsShaped(i);
  }

  /** The words the tokenizer gives for row i are those of `Row(i)`. */
  lemma RowFromTokens(i: nat, params: seq<string>, placeHolders: seq<string>)
    requires i < NUMBER_OF_INSTRUCTIONS
    requires params == Tokens(INSTRUCTIONS[i]) && placeHolders == Tokens(PLACE_HOLDERS[i])
    ensures 2 <= |params| && Row(i) == (params[0], Instruction(params[1..], placeHolders))
  {
    TokenCounts(i);
  }

  /** The first k rows, deserialised. */
  function Rows(k: nat): (rows: seq<(string, Instruction)>)
    requires k <= NUMBER_OF_INSTRUCTIONS
    ensures |rows| == k
    ensures forall i :: 0 <= i < k ==> rows[i] == Row(i)
  {
    if k == 0 then [] else Rows(k - 1) + [Row(k - 1)]
  }

  /** The map built by storing each of the first k rows under its name; a
      row overwrites an earlier row of the same name. */
  function Store(rows: seq<(string, Instruction)>, k: nat): map<string, Instruction>
    requires k <= |rows|
  {
    if k == 0 then map[] else Store(rows, k - 1)[rows[k - 1].0 := rows[k - 1].1]
  }

  /** The complete catalog. */
  function InstructionTable(): map<string, Instruction> {
    Store(Rows(NUMBER_OF_INSTRUCTIONS), NUMBER_OF_INSTRUCTIONS)
  }

  /** Storing row i: the entry split from the two table rows goes in under
      the row's name. */
  lemma StoreNext(i: nat)
    requires i < NUMBER_OF_INSTRUCTIONS
    ensures Store(Rows(NUMBER_OF_INSTRUCTIONS), i + 1) == Store(Rows(NUMBER_OF_INSTRUCTIONS), i)[Row(i).0 := Row(i).1]
  {
    var rows := Rows(NUMBER_OF_INSTRUCTIONS);
    assert rows[i] == Row(i);
  }

  /** Row i is the last of the first k rows named `name`. */
  predicate LastNamed(rows: seq<(string, Instruction)>, name: string, i: int, k: nat)
    requires k <= |rows|
  {
    && 0 <= i < k
    && rows[i].0 == name
    && forall j :: i < j < k ==> rows[j].0 != name
  }

  /** After k rows, a name is in the map exactly when one of those rows
      carries it, and its entry is the one of the last such row. */
  lemma {:induction false} StoreSpec(rows: seq<(string, Instruction)>, k: nat)
    requires k <= |rows|
    ensures forall name :: name in Store(rows, k) <==> exists i :: 0 <= i < k && rows[i].0 == name
    ensures forall name, i :: LastNamed(rows, name, i, k) ==> name in Store(rows, k) && Store(rows, k)[name] == rows[i].1
    decreases k
  {
    if k > 0 {
      StoreSpec(rows, k - 1);
      forall name, i | LastNamed(rows, name, i, k)
        ensures name in Store(rows, k) && Store(rows, k)[name] == rows[i].1
      {
        if i < k - 1 {
          assert LastNamed(rows, name, i, k - 1);
        }
      }
    }
  }

  /** Every name in the map comes from a last row carrying it. */
  lemma {:induction false} StoredFromLast(rows: seq<(string, Instruction)>, k: nat, name: string)
    requires k <= |rows| && name in Store(rows, k)
    ensures exists i :: LastNamed(rows, name, i, k)
    decreases k
  {
    if rows[k - 1].0 == name {
      assert LastNamed(rows, name, k - 1, k);
    } else {
      StoredFromLast(rows, k - 1, name);
      var i :| LastNamed(rows, name, i, k - 1);
      assert LastNamed(rows, name, i, k);
    }
  }

  // ---------------------------------------------------------------------
  // What translate_instruction needs of an entry.

  /** An entry the translator can use: it reads the last operand role, and
      every template field but the last takes its width from
      `PLACE_HOLDER_LENGTHS`. */
  predicate ValidEntry(ins: Instruction) {
    && 1 <= |ins.params|
    && 1 <= |ins.placeHolders| <= |PLACE_HOLDER_LENGTHS| + 1
  }

  predicate ValidCatalog(catalog: map<string, Instruction>) {
    forall name :: name in catalog ==> ValidEntry(catalog[name])
  }

  /** Every entry of the catalog has one to three operand roles and a
      template of two to six fields. */
  lemma CatalogShape()
    ensures ValidCatalog(InstructionTable())
    ensures forall name :: name in InstructionTable() ==>
      1 <= |InstructionTable()[name].params| <= 3 && 2 <= |InstructionTable()[name].placeHolders| <= 6
  {
    var rows := Rows(NUMBER_OF_INSTRUCTIONS);
    StoreSpec(rows, NUMBER_OF_INSTRUCTIONS);
    forall name | name in InstructionTable()
      ensures 1 <= |InstructionTable()[name].params| <= 3 && 2 <= |InstructionTable()[name].placeHolders| <= 6
    {
      StoredFromLast(rows, NUMBER_OF_INSTRUCTIONS, name);
      var i :| LastNamed(rows, name, i, NUMBER_OF_INSTRUCTIONS);
      RowWords(i);
    }
  }

  /** `msub` has two rows, 6 and 7; storing row 7 last keeps its template
      (function code 5) and drops the template of row 6 (code 4). */
  lemma LaterMsubKept()
    ensures "msub" in InstructionTable()
    ensures InstructionTable()["msub"] == Instruction(["rs", "rt"], ["0x1c", "rs", "rt", "0", "5"])
    ensures Row(6).0 == "msub" && Row(6).1 != InstructionTable()["msub"]
  {
    var rows := Rows(NUMBER_OF_INSTRUCTIONS);
    MsubRows();
    forall j | 7 < j < NUMBER_OF_INSTRUCTIONS
      ensures rows[j].0 != "msub"
    {
      RowWords(j);
      NoLaterMsub(j);
    }
    assert LastNamed(rows, "msub", 7, NUMBER_OF_INSTRUCTIONS);
    StoreSpec(rows, NUMBER_OF_INSTRUCTIONS);
  }

  lemma MsubRows()
    ensures Row(6) == ("msub", Instruction(["rs", "rt"], ["0x1c", "rs", "rt", "0", "4"]))
    ensures Row(7) == ("msub", Instruction(["rs", "rt"], ["0x1c", "rs", "rt", "0", "5"]))
  {
    MsubRow(6);
    MsubRow(7);
  }

  lemma MsubRow(i: nat)
    requires 6 <= i <= 7
    ensures Row(i) == ("msub", Instruction(["rs", "rt"], ["0x1c", "rs", "rt", "0", if i == 6 then "4" else "5"]))
  {
    RowWords(i);
    assert INSTRUCTION_WORDS[i] == INSTRUCTION_WORDS_1[i] == ["msub", "rs", "rt"];
    assert PLACE_HOLDER_WORDS[i] == PLACE_HOLDER_WORDS_1[i];
  }

  lemma NoLaterMsub(j: nat)
    requires 7 < j < NUMBER_OF_INSTRUCTIONS
    ensures |INSTRUCTION_WORDS[j]| > 0 && INSTRUCTION_WORDS[j][0] != "msub"
  {
    if j < 26 {
      assert INSTRUCTION_WORDS[j] == INSTRUCTION_WORDS_1[j];
      NoMsubInPart1();
    } else if j < 52 {
      assert INSTRUCTION_WORDS[j] == INSTRUCTION_WORDS_2[j - 26];
      NoMsubInPart2();
    } else {
      assert INSTRUCTION_WORDS[j] == INSTRUCTION_WORDS_3[j - 52];
      NoMsubInPart3();
    }
  }

  lemma NoMsubInPart1()
    ensures forall k :: 7 < k < |INSTRUCTION_WORDS_1| ==>
      |INSTRUCTION_WORDS_1[k]| > 0 && INSTRUCTION_WORDS_1[k][0] != "msub"
  {
  }

  lemma NoMsubInPart2()
    ensures forall k :: 0 <= k < |INSTRUCTION_WORDS_2| ==>
      |INSTRUCTION_WORDS_2[k]| > 0 && INSTRUCTION_WORDS_2[k][0] != "msub"
  {
  }

  lemma NoMsubInPart3()
    ensures forall k :: 0 <= k < |INSTRUCTION_WORDS_3| ==>
      |INSTRUCTION_WORDS_3[k]| > 0 && INSTRUCTION_WORDS_3[k][0] != "msub"
  {
  }

  /** No instruction names `Offset` among its operand roles: the branch
      offset field of a template is always computed from the label, never
      read from an operand. */
  lemma NoOffsetRole()
    ensures forall name :: name in InstructionTable() ==> "Offset" !in InstructionTable()[name].params
  {
    var rows := Rows(NUMBER_OF_INSTRUCTIONS);
    StoreSpec(rows, NUMBER_OF_INSTRUCTIONS);
    forall name | name in InstructionTable()
      ensures "Offset" !in InstructionTable()[name].params
    {
      StoredFromLast(rows, NUMBER_OF_INSTRUCTIONS, name);
      var i :| LastNamed(rows, name, i, NUMBER_OF_INSTRUCTIONS);
      RowWords(i);
      NoOffsetWord(i);
      assert "Offset" !in INSTRUCTION_WORDS[i][1..];
    }
  }

  lemma NoOffsetWord(i: nat)
    requires i < NUMBER_OF_INSTRUCTIONS
    ensures "Offset" !in INSTRUCTION_WORDS[i]
  {
    if i < 26 {
      assert INSTRUCTION_WORDS[i] == INSTRUCTION_WORDS_1[i];
      NoOffsetInPart1();
    } else if i < 52 {
      assert INSTRUCTION_WORDS[i] == INSTRUCTION_WORDS_2[i - 26];
      NoOffsetInPart2();
    } else {
      assert INSTRUCTION_WORDS[i] == INSTRUCTION_WORDS_3[i - 52];
      NoOffsetInPart3();
    }
  }

  lemma NoOffsetInPart1()
    ensures forall k :: 0 <= k < |INSTRUCTION_WORDS_1| ==> "Offset" !in INSTRUCTION_WORDS_1[k]
  {
  }

  lemma NoOffsetInPart2()
    ensures forall k :: 0 <= k < |INSTRUCTION_WORDS_2| ==> "Offset" !in INSTRUCTION_WORDS_2[k]
  {
  }

  lemma NoOffsetInPart3()
    ensures forall k :: 0 <= k < |INSTRUCTION_WORDS_3| ==> "Offset" !in INSTRUCTION_WORDS_3[k]
  {
  }
}
