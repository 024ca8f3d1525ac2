/** The two passes over the source lines and the global state they share:
    `scan_labels` (pass 1), `process_line`/`assemble` (pass 2), the table
    initialisers, and `main` without its streams. The globals of the
    original (the register table, the catalog, the label table, `PC` and
    the output stream) are the fields of `Assembler`. */
module Driver {
  import opened Tokenizer
  import opened Numbers
  import opened Registers
  import opened Catalog
  import opened Translator

  lemma MergeEmpty<K, V>(m: map<K, V>)
    ensures map[] + m == m
  {
  }

  /** Updating a union on the right is updating its right operand. */
  lemma MergeUpdate<K, V>(a: map<K, V>, b: map<K, V>, k: K, v: V)
    ensures (a + b)[k := v] == a + b[k := v]
  {
  }

  // ---------------------------------------------------------------------
  // Pass 1: scan_labels.

  /** Number of lines holding two or more tokens: the lines that are
      instructions. Blank lines, comment-only lines and lines holding only
      a label are not counted. */
  function InstructionCount(lines: seq<string>): nat {
    if lines == [] then 0
    else InstructionCount(lines[..|lines| - 1]) + (if |Tokens(lines[|lines| - 1])| >= 2 then 1 else 0)
  }

  predicate EndsWithColon(w: string) {
    |w| > 0 && w[|w| - 1] == ':'
  }

  /** The label table pass 1 builds: a line whose first token ends with `:`
      maps that token without the `:` to the number of instruction lines
      before it; a later definition replaces an earlier one. */
  function LabelTable(lines: seq<string>): map<string, int> {
    if lines == [] then map[]
    else
      var prefix := lines[..|lines| - 1];
      var tokens := Tokens(lines[|lines| - 1]);
      if |tokens| > 0 && EndsWithColon(tokens[0])
      then LabelTable(prefix)[tokens[0][..|tokens[0]| - 1] := InstructionCount(prefix)]
      else LabelTable(prefix)
  }

  /** One more line extends the count and the table by that line alone. */
  lemma ScanStep(lines: seq<string>, i: nat)
    requires i < |lines|
    ensures InstructionCount(lines[..i + 1])
         == InstructionCount(lines[..i]) + (if |Tokens(lines[i])| >= 2 then 1 else 0)
    ensures LabelTable(lines[..i + 1])
         == if |Tokens(lines[i])| > 0 && EndsWithColon(Tokens(lines[i])[0])
            then LabelTable(lines[..i])[Tokens(lines[i])[0][..|Tokens(lines[i])[0]| - 1] := InstructionCount(lines[..i])]
            else LabelTable(lines[..i])
  {
    assert lines[..i + 1][..i] == lines[..i];
  }

  /** Line n defines label `name`. */
  predicate Defines(lines: seq<string>, n: int, name: string) {
    0 <= n < |lines| && |Tokens(lines[n])| > 0 && Tokens(lines[n])[0] == name + ":"
  }

  /** Line n is the last line defining `name`. */
  predicate LastDefinition(lines: seq<string>, n: int, name: string) {
    Defines(lines, n, name) && forall m :: n < m < |lines| ==> !Defines(lines, m, name)
  }

  lemma ColonSplit(w: string, name: string)
    ensures (EndsWithColon(w) && w[..|w| - 1] == name) <==> w == name + ":"
  {
    if w == name + ":" {
      assert w[..|w| - 1] == name;
    }
    if EndsWithColon(w) && w[..|w| - 1] == name {
      assert w == w[..|w| - 1] + [w[|w| - 1]];
    }
  }

  /** The instruction count is additive over concatenated sources. */
  lemma {:induction false} InstructionCountAppend(a: seq<string>, b: seq<string>)
    ensures InstructionCount(a + b) == InstructionCount(a) + InstructionCount(b)
    decreases |b|
  {
    if b != [] {
      assert (a + b)[..|a + b| - 1] == a + b[..|b| - 1];
      InstructionCountAppend(a, b[..|b| - 1]);
    } else {
      assert a + b == a;
    }
  }

  /** The last line either defines a label, which then maps to the number
      of instruction lines before it, or leaves the table as it was. */
  lemma LabelTableStep(lines: seq<string>, name: string)
    requires lines != []
    ensures var prefix := lines[..|lines| - 1];
      && (name in LabelTable(lines) <==> name in LabelTable(prefix) || Defines(lines, |lines| - 1, name))
      && (Defines(lines, |lines| - 1, name) ==> LabelTable(lines)[name] == InstructionCount(prefix))
      && (!Defines(lines, |lines| - 1, name) && name in LabelTable(prefix) ==>
            LabelTable(lines)[name] == LabelTable(prefix)[name])
  {
    var tokens := Tokens(lines[|lines| - 1]);
    if |tokens| > 0 {
      ColonSplit(tokens[0], name);
    }
  }

  /** A label is in the table exactly when some line defines it, and it
      maps to the number of instruction lines before its last definition. */
  lemma {:induction false} LabelTableSpec(lines: seq<string>)
    ensures forall name :: name in LabelTable(lines) <==> exists n :: Defines(lines, n, name)
    ensures forall n, name :: LastDefinition(lines, n, name) ==>
      name in LabelTable(lines) && LabelTable(lines)[name] == InstructionCount(lines[..n])
    decreases |lines|
  {
    if lines != [] {
      var last := |lines| - 1;
      var prefix := lines[..last];
      LabelTableSpec(prefix);
      forall name
        ensures name in LabelTable(lines) <==> exists n :: Defines(lines, n, name)
      {
        LabelTableStep(lines, name);
        if exists n :: Defines(lines, n, name) {
          var n :| Defines(lines, n, name);
          if n < last {
            assert prefix[n] == lines[n];
            assert Defines(prefix, n, name);
          }
        }
        if exists n :: Defines(prefix, n, name) {
          var n :| Defines(prefix, n, name);
          assert prefix[n] == lines[n];
          assert Defines(lines, n, name);
        }
      }
      forall n, name | LastDefinition(lines, n, name)
        ensures name in LabelTable(lines) && LabelTable(lines)[name] == InstructionCount(lines[..n])
      {
        LabelTableStep(lines, name);
        if n == last {
          assert lines[..n] == prefix;
        } else {
          assert !Defines(lines, last, name);
          assert prefix[n] == lines[n];
          forall m | n < m < |prefix| ensures !Defines(prefix, m, name) {
            assert prefix[m] == lines[m];
            assert !Defines(lines, m, name);
          }
          assert LastDefinition(prefix, n, name);
          assert prefix[..n] == lines[..n];
        }
      }
    }
  }

  /** `read_label` over the table of pass 1: a label reads as the number of
      instructions before its last definition, and a name never defined
      reads as 0. */
  lemma ReadLabelSpec(lines: seq<string>, name: string)
    ensures (forall n :: !Defines(lines, n, name)) ==> ReadLabel(LabelTable(lines), name) == 0
    ensures forall n :: LastDefinition(lines, n, name) ==>
      ReadLabel(LabelTable(lines), name) == InstructionCount(lines[..n])
  {
    LabelTableSpec(lines);
  }

  // ---------------------------------------------------------------------
  // Pass 2: process_line and assemble.

  /** The state pass 2 updates: the program counter and the lines written. */
  datatype Pass2 = Pass2(pc: int, output: seq<string>)

  /** Pass 2 finds the mnemonic after the first token when that token holds
      a `:` anywhere (pass 1 asks for a `:` at the end). */
  function StartOffset(tokens: seq<string>): nat
    requires |tokens| > 0
  {
    if ':' in tokens[0] then 1 else 0
  }

  /** A line `process_line` can handle: fewer than two tokens, or an
      instruction `translate_instruction` is defined on. */
  predicate WellFormedLine(catalog: map<string, Instruction>, line: string) {
    var tokens := Tokens(line);
    |tokens| >= 2 ==> WellFormedInstruction(catalog, tokens, StartOffset(tokens))
  }

  predicate WellFormedProgram(catalog: map<string, Instruction>, lines: seq<string>) {
    forall n :: 0 <= n < |lines| ==> WellFormedLine(catalog, lines[n])
  }

  /** The line pass 2 writes for an instruction line with the given PC
      and tokens: its translation. A malformed line, which the methods
      below exclude, is given the empty line so that the function is
      total. */
  function Encode(regs: map<string, int>, labels: map<string, int>, catalog: map<string, Instruction>,
                  pc: int, tokens: seq<string>): string
  {
    if |tokens| >= 2 && WellFormedInstruction(catalog, tokens, StartOffset(tokens))
    then Translate(regs, labels, catalog, pc, tokens, StartOffset(tokens))
    else ""
  }

  /** The translation pass 2 applies, for the given tables. */
  function Encoder(regs: map<string, int>, labels: map<string, int>, catalog: map<string, Instruction>)
    : (int, seq<string>) -> string
  {
    (pc: int, tokens: seq<string>) => Encode(regs, labels, catalog, pc, tokens)
  }

  lemma EncoderApplies(regs: map<string, int>, labels: map<string, int>, catalog: map<string, Instruction>,
                       pc: int, line: string)
    requires WellFormedLine(catalog, line) && |Tokens(line)| >= 2
    ensures WellFormedInstruction(catalog, Tokens(line), StartOffset(Tokens(line)))
    ensures Encoder(regs, labels, catalog)(pc, Tokens(line))
         == Translate(regs, labels, catalog, pc, Tokens(line), StartOffset(Tokens(line)))
  {
  }

  lemma StepSkips(encode: (int, seq<string>) -> string, s: Pass2, line: string)
    requires |Tokens(line)| <= 1
    ensures Pass2Step(encode, s, line) == s
  {
  }

  lemma StepWrites(encode: (int, seq<string>) -> string, s: Pass2, line: string, code: string)
    requires |Tokens(line)| >= 2 && code == encode(s.pc + 4, Tokens(line))
    ensures Pass2Step(encode, s, line) == Pass2(s.pc + 4, s.output + [code])
  {
  }

  /** An instruction line advances PC by 4 and writes its translation. */
  lemma ProcessStep(regs: map<string, int>, labels: map<string, int>, catalog: map<string, Instruction>,
                    s: Pass2, line: string, tokens: seq<string>, pc: int, o: nat, code: string)
    requires tokens == Tokens(line) && |tokens| >= 2 && pc == s.pc + 4 && o == StartOffset(tokens)
    requires WellFormedInstruction(catalog, tokens, o)
    requires code == Translate(regs, labels, catalog, pc, tokens, o)
    ensures Pass2Step(Encoder(regs, labels, catalog), s, line) == Pass2(pc, s.output + [code])
  {
    assert Encoder(regs, labels, catalog)(pc, tokens) == Translate(regs, labels, catalog, pc, tokens, o);
    StepWrites(Encoder(regs, labels, catalog), s, line, code);
  }

  /** `process_line` on one line: lines of fewer than two tokens are
      skipped; any other advances PC by 4 and then writes its encoding at
      the new PC. */
  function Pass2Step(encode: (int, seq<string>) -> string, s: Pass2, line: string): Pass2 {
    var tokens := Tokens(line);
    if |tokens| <= 1 then s else Pass2(s.pc + 4, s.output + [encode(s.pc + 4, tokens)])
  }

  /** `assemble`: `process_line` on every line in order. */
  function Pass2Run(encode: (int, seq<string>) -> string, s: Pass2, lines: seq<string>): Pass2 {
    if lines == [] then s
    else Pass2Step(encode, Pass2Run(encode, s, lines[..|lines| - 1]), lines[|lines| - 1])
  }

  /** What `main` writes: pass 1, then pass 2 from PC = -4 with the
      register table, the catalog and the labels of pass 1. */
  function Program(lines: seq<string>): seq<string>
    requires WellFormedProgram(InstructionTable(), lines)
  {
    Pass2Run(Encoder(RegisterTable(), LabelTable(lines), InstructionTable()), Pass2(-4, []), lines).output
  }

  /** PC advances by 4 and one line is written per instruction line, and
      lines already written stay as they were. */
  lemma {:induction false} Pass2Counts(encode: (int, seq<string>) -> string, s: Pass2, lines: seq<string>)
    ensures Pass2Run(encode, s, lines).pc == s.pc + 4 * InstructionCount(lines)
    ensures |Pass2Run(encode, s, lines).output| == |s.output| + InstructionCount(lines)
    ensures Pass2Run(encode, s, lines).output[..|s.output|] == s.output
    decreases |lines|
  {
    if lines != [] {
      var prefix := lines[..|lines| - 1];
      Pass2Counts(encode, s, prefix);
      var r := Pass2Run(encode, s, prefix);
      if |Tokens(lines[|lines| - 1])| >= 2 {
        var line := encode(r.pc + 4, Tokens(lines[|lines| - 1]));
        assert (r.output + [line])[..|s.output|] == r.output[..|s.output|];
      }
    }
  }

  /** Pass agreement: the instruction on line n is written at position k,
      the number of instruction lines before it, and is encoded with
      PC = s.pc + 4 * (k + 1); from PC = -4 that is 4 * k, the same index
      pass 1 gives a label on that line. */
  lemma {:induction false} Pass2Agreement(encode: (int, seq<string>) -> string, s: Pass2, lines: seq<string>, n: nat)
    requires n < |lines| && |Tokens(lines[n])| >= 2
    ensures
      var k := InstructionCount(lines[..n]);
      && |s.output| + k < |Pass2Run(encode, s, lines).output|
      && Pass2Run(encode, s, lines).output[|s.output| + k] == encode(s.pc + 4 * (k + 1), Tokens(lines[n]))
    decreases |lines|
  {
    var last := |lines| - 1;
    var prefix := lines[..last];
    var r := Pass2Run(encode, s, prefix);
    if n < last {
      assert prefix[n] == lines[n];
      assert prefix[..n] == lines[..n];
      Pass2Agreement(encode, s, prefix, n);
    } else {
      assert lines[..n] == prefix;
      Pass2Counts(encode, s, prefix);
    }
  }

  /** Pass agreement from the initial state, PC = -4 and no output. */
  lemma Pass2FromStart(encode: (int, seq<string>) -> string, lines: seq<string>, n: nat)
    requires n < |lines| && |Tokens(lines[n])| >= 2
    ensures
      var k := InstructionCount(lines[..n]);
      && k < |Pass2Run(encode, Pass2(-4, []), lines).output|
      && Pass2Run(encode, Pass2(-4, []), lines).output[k] == encode(4 * k, Tokens(lines[n]))
  {
    Pass2Agreement(encode, Pass2(-4, []), lines, n);
  }

  /** From PC = -4 and no output, the line written for source line n is
      its translation at PC = 4 * k, k being the number of instruction
      lines before it. */
  lemma Pass2Translation(regs: map<string, int>, labels: map<string, int>, catalog: map<string, Instruction>,
                         lines: seq<string>, n: nat)
    requires WellFormedProgram(catalog, lines)
    requires n < |lines| && |Tokens(lines[n])| >= 2
    ensures
      var k := InstructionCount(lines[..n]);
      var tokens := Tokens(lines[n]);
      var out := Pass2Run(Encoder(regs, labels, catalog), Pass2(-4, []), lines).output;
      && WellFormedInstruction(catalog, tokens, StartOffset(tokens))
      && k < |out|
      && out[k] == Translate(regs, labels, catalog, 4 * k, tokens, StartOffset(tokens))
  {
    Pass2FromStart(Encoder(regs, labels, catalog), lines, n);
    EncoderApplies(regs, labels, catalog, 4 * InstructionCount(lines[..n]), lines[n]);
  }

  /** The program writes one line per instruction line. */
  lemma ProgramLength(lines: seq<string>)
    requires WellFormedProgram(InstructionTable(), lines)
    ensures |Program(lines)| == InstructionCount(lines)
  {
    Pass2Counts(Encoder(RegisterTable(), LabelTable(lines), InstructionTable()), Pass2(-4, []), lines);
  }

  /** The line written for source line n is its translation at PC = 4 * k,
      k being the number of instruction lines before it. */
  lemma ProgramAgreement(lines: seq<string>, n: nat)
    requires WellFormedProgram(InstructionTable(), lines)
    requires n < |lines| && |Tokens(lines[n])| >= 2
    ensures
      var k := InstructionCount(lines[..n]);
      var tokens := Tokens(lines[n]);
      && WellFormedInstruction(InstructionTable(), tokens, StartOffset(tokens))
      && k < |Program(lines)|
      && Program(lines)[k] == Translate(RegisterTable(), LabelTable(lines), InstructionTable(), 4 * k, tokens, StartOffset(tokens))
  {
    Pass2Translation(RegisterTable(), LabelTable(lines), InstructionTable(), lines, n);
  }

  /** Every line written is 32 characters, each `0` or `1`. */
  lemma ProgramShape(lines: seq<string>, k: nat)
    requires WellFormedProgram(InstructionTable(), lines)
    requires k < |Program(lines)|
    ensures |Program(lines)[k]| == INSTRUCTION_LENGTH && IsBinary(Program(lines)[k])
  {
    ProgramLength(lines);
    var n := InstructionLine(lines, k);
    ProgramAgreement(lines, n);
    var tokens := Tokens(lines[n]);
    TranslateShape(RegisterTable(), LabelTable(lines), InstructionTable(), 4 * k, tokens, StartOffset(tokens));
  }

  /** The source line holding the k-th instruction. */
  lemma {:induction false} InstructionLineExists(lines: seq<string>, k: nat)
    requires k < InstructionCount(lines)
    ensures exists n :: 0 <= n < |lines| && |Tokens(lines[n])| >= 2 && InstructionCount(lines[..n]) == k
    decreases |lines|
  {
    var last := |lines| - 1;
    var prefix := lines[..last];
    if k < InstructionCount(prefix) {
      InstructionLineExists(prefix, k);
      var n :| 0 <= n < |prefix| && |Tokens(prefix[n])| >= 2 && InstructionCount(prefix[..n]) == k;
      assert prefix[..n] == lines[..n];
      assert prefix[n] == lines[n];
    } else {
      assert lines[..last] == prefix;
    }
  }

  ghost function InstructionLine(lines: seq<string>, k: nat): (n: nat)
    requires k < InstructionCount(lines)
    ensures n < |lines| && |Tokens(lines[n])| >= 2 && InstructionCount(lines[..n]) == k
  {
    InstructionLineExists(lines, k);
    var n :| 0 <= n < |lines| && |Tokens(lines[n])| >= 2 && InstructionCount(lines[..n]) == k;
    n
  }

  /** A branch written by the program: when line n is an instruction whose
      template field p is `Offset` and whose last operand is a label last
      defined on line m, and i and i + d + 1 are the instruction indices of
      the two lines, field p of the line the program writes for the branch
      holds the offset d. For a forward branch d is the number of
      instructions strictly between them. */
  lemma ProgramBranchOffset(lines: seq<string>, n: nat, m: nat, name: string, p: nat, i: int, d: int)
    requires WellFormedProgram(InstructionTable(), lines)
    requires n < |lines| && |Tokens(lines[n])| >= 2
    requires
      var tokens := Tokens(lines[n]);
      var ins := InstructionTable()[tokens[StartOffset(tokens)]];
      && !LoadStore(ins)
      && p < |ins.placeHolders| && ins.placeHolders[p] == "Offset"
      && StripComma(tokens[|tokens| - 1]) == name
    requires LastDefinition(lines, m, name)
    requires i == InstructionCount(lines[..n]) && i + d + 1 == InstructionCount(lines[..m])
    ensures
      var tokens := Tokens(lines[n]);
      && 0 <= i < |Program(lines)|
      && FieldHolds(Program(lines)[i], p, |InstructionTable()[tokens[StartOffset(tokens)]].placeHolders|, d)
      && (n < m ==> d == InstructionCount(lines[n + 1..m]))
  {
    NoOffsetRole();
    Pass2BranchOffset(InstructionTable(), lines, n, m, name, p, i, d);
    if n < m {
      BranchSpan(lines, n, m);
    }
  }

  /** The same for pass 2 over any catalog whose entry for the branch has
      no `Offset` operand role; i is the instruction index of line n and
      the label names the instruction at index i + d + 1. */
  lemma Pass2BranchOffset(catalog: map<string, Instruction>, lines: seq<string>, n: nat, m: nat, name: string, p: nat,
                          i: int, d: int)
    requires WellFormedProgram(catalog, lines)
    requires n < |lines| && |Tokens(lines[n])| >= 2
    requires
      var tokens := Tokens(lines[n]);
      var ins := catalog[tokens[StartOffset(tokens)]];
      && !LoadStore(ins) && "Offset" !in ins.params
      && p < |ins.placeHolders| && ins.placeHolders[p] == "Offset"
      && StripComma(tokens[|tokens| - 1]) == name
    requires LastDefinition(lines, m, name)
    requires i == InstructionCount(lines[..n]) && i + d + 1 == InstructionCount(lines[..m])
    ensures
      var tokens := Tokens(lines[n]);
      var out := Pass2Run(Encoder(RegisterTable(), LabelTable(lines), catalog), Pass2(-4, []), lines).output;
      && 0 <= i < |out|
      && FieldHolds(out[i], p, |catalog[tokens[StartOffset(tokens)]].placeHolders|, d)
  {
    var tokens := Tokens(lines[n]);
    var labels := LabelTable(lines);
    Pass2Translation(RegisterTable(), labels, catalog, lines, n);
    ReadLabelSpec(lines, name);
    TranslateBranch(RegisterTable(), labels, catalog, i, d, tokens, StartOffset(tokens), p);
  }

  /** Between an instruction on line n and a later line m lie exactly the
      instructions counted up to m, less those up to and including line n. */
  lemma BranchSpan(lines: seq<string>, n: nat, m: nat)
    requires n < m <= |lines| && |Tokens(lines[n])| >= 2
    ensures InstructionCount(lines[..m]) == InstructionCount(lines[..n]) + 1 + InstructionCount(lines[n + 1..m])
  {
    assert lines[..m] == lines[..n + 1] + lines[n + 1..m];
    InstructionCountAppend(lines[..n + 1], lines[n + 1..m]);
    assert lines[..n + 1][..n] == lines[..n];
  }

  // ---------------------------------------------------------------------
  // The globals and the procedures that update them.

  class Assembler {
    /** `reg_name_to_int` */
    var regs: map<string, int>
    /** `name_to_instrutcion` */
    var instructions: map<string, Instruction>
    /** `label_to_line_number` */
    var labels: map<string, int>
    /** `PC` */
    var pc: int
    /** The lines written to the output stream. */
    var output: seq<string>

    /** The globals before `main` runs: empty tables, PC = -4, nothing
        written. */
    constructor()
      ensures regs == map[] && instructions == map[] && labels == map[]
      ensures pc == -4 && output == []
    {
      regs := map[];
      instructions := map[];
      labels := map[];
      pc := -4;
      output := [];
    }

    /** `initialize_reg_name_to_int`: name i of `reg_names` is mapped to i. */
    method InitializeRegNameToInt()
      modifies this
      ensures regs == old(regs) + RegisterTable()
      ensures instructions == old(instructions) && labels == old(labels)
      ensures pc == old(pc) && output == old(output)
    {
      for i := 0 to NUMBER_OF_REGISTERS
        invariant regs == old(regs) + IndexMap(REG_NAMES, i)
        invariant instructions == old(instructions) && labels == old(labels)
        invariant pc == old(pc) && output == old(output)
      {
        MergeUpdate(old(regs), IndexMap(REG_NAMES, i), REG_NAMES[i], i);
        regs := regs[REG_NAMES[i] := i];
      }
    }

    /** `initialize_instructions`: every row of the two tables is split,
        copied into an entry and stored under its mnemonic. */
    method InitializeInstructions()
      modifies this
      ensures instructions == old(instructions) + InstructionTable()
      ensures regs == old(regs) && labels == old(labels)
      ensures pc == old(pc) && output == old(output)
    {
      for i := 0 to NUMBER_OF_INSTRUCTIONS
        invariant instructions == old(instructions) + Store(Rows(NUMBER_OF_INSTRUCTIONS), i)
        invariant regs == old(regs) && labels == old(labels)
        invariant pc == old(pc) && output == old(output)
      {
        var name, ins := ReadRow(i);
        StoreNext(i);
        MergeUpdate(old(instructions), Store(Rows(NUMBER_OF_INSTRUCTIONS), i), name, ins);
        instructions := instructions[name := ins];
      }
    }

    /** One iteration of `initialize_instructions`: both rows of entry i
        are split, the name is the first word, and the other words and the
        template are copied into the entry. */
    static method ReadRow(i: nat) returns (name: string, ins: Instruction)
      requires i < NUMBER_OF_INSTRUCTIONS
      ensures (name, ins) == Row(i)
    {
      var params := SplitString(INSTRUCTIONS[i]);
      var placeHolders := SplitString(PLACE_HOLDERS[i]);
      RowFromTokens(i, params, placeHolders);
      name := params[0];
      ins := NewEntry(params, placeHolders);
    }

    /** The two copy loops of `initialize_instructions`: every word after
        the mnemonic becomes an operand role, every template word a
        field. */
    static method NewEntry(params: seq<string>, placeHolders: seq<string>) returns (ins: Instruction)
      requires |params| >= 1
      ensures ins == Instruction(params[1..], placeHolders)
    {
      ins := Instruction([], []);
      for j := 1 to |params|
        invariant ins == Instruction(params[1..j], [])
      {
        assert params[1..j + 1] == params[1..j] + [params[j]];
        ins := ins.(params := ins.params + [params[j]]);
      }
      for j := 0 to |placeHolders|
        invariant ins == Instruction(params[1..], placeHolders[..j])
      {
        assert placeHolders[..j + 1] == placeHolders[..j] + [placeHolders[j]];
        ins := ins.(placeHolders := ins.placeHolders + [placeHolders[j]]);
      }
      assert placeHolders[..|placeHolders|] == placeHolders;
    }

    /** `scan_labels`: pass 1 over the lines, counting instruction lines
        from -1 and recording each label. */
    method ScanLabels(lines: seq<string>)
      modifies this
      ensures labels == old(labels) + LabelTable(lines)
      ensures regs == old(regs) && instructions == old(instructions)
      ensures pc == old(pc) && output == old(output)
    {
      var lineNumber := -1;
      for i := 0 to |lines|
        invariant labels == old(labels) + LabelTable(lines[..i])
        invariant lineNumber == InstructionCount(lines[..i]) - 1
        invariant regs == old(regs) && instructions == old(instructions)
        invariant pc == old(pc) && output == old(output)
      {
        ScanStep(lines, i);
        var tokens := SplitString(lines[i]);
        if |tokens| == 0 {
          continue;
        }
        TokensAreTokens(lines[i]);
        var token := tokens[0];
        if token[|token| - 1] == ':' {
          token := token[..|token| - 1];
          MergeUpdate(old(labels), LabelTable(lines[..i]), token, lineNumber + 1);
          labels := labels[token := lineNumber + 1];
        }
        if |tokens| != 1 {
          lineNumber := lineNumber + 1;
        }
      }
      assert lines[..|lines|] == lines;
    }

    /** `translate_instruction`: strips one trailing comma from every
        token, binds the operand roles, and writes either the load/store
        layout or every template field at its width. */
    method TranslateInstruction(tokens: seq<string>, o: nat) returns (line: string)
      requires WellFormedInstruction(instructions, tokens, o)
      ensures line == Translate(regs, labels, instructions, pc, tokens, o)
    {
      var ins := instructions[tokens[o]];
      var stripped := StripTrailingCommas(tokens);
      var params := BindRoles(ins.params, stripped, o);
      assert Prepared(instructions, tokens, o, ins, stripped, params);
      if LoadStore(ins) {
        TranslateAddressCase(regs, labels, instructions, pc, tokens, o, ins, stripped, params);
        line := TranslateAddress(ins, params);
        assert regs == old(regs);
      } else {
        TranslateFieldsCase(regs, labels, instructions, pc, tokens, o, ins, stripped, params);
        line := TranslateFields(params, stripped[|stripped| - 1], ins.placeHolders);
        assert regs == old(regs) && labels == old(labels) && pc == old(pc);
      }
    }

    /** The comma loop of `translate_instruction`: one trailing comma is
        removed from every token. */
    static method StripTrailingCommas(tokens: seq<string>) returns (stripped: seq<string>)
      ensures stripped == StripCommas(tokens)
    {
      stripped := tokens;
      for i := 0 to |stripped|
        invariant |stripped| == |tokens|
        invariant forall k :: 0 <= k < i ==> stripped[k] == StripComma(tokens[k])
        invariant forall k :: i <= k < |tokens| ==> stripped[k] == tokens[k]
      {
        var t := stripped[i];
        if |t| > 0 && t[|t| - 1] == ',' {
          stripped := stripped[i := t[..|t| - 1]];
        }
      }
    }

    /** The parameter loop of `translate_instruction`: role i is bound to
        the token after the mnemonic and the i roles before it. */
    static method BindRoles(roles: seq<string>, stripped: seq<string>, o: nat) returns (params: map<string, string>)
      requires o + |roles| < |stripped|
      ensures params == BindParams(roles, stripped, o, |roles|)
    {
      params := map[];
      for i := 0 to |roles|
        invariant params == BindParams(roles, stripped, o, i)
      {
        params := params[roles[i] := stripped[o + i + 1]];
      }
    }

    /** The load/store branch of `translate_instruction`. */
    method TranslateAddress(ins: Instruction, params: map<string, string>) returns (line: string)
      requires |ins.placeHolders| >= 1 && '(' in Param(params, "address")
      ensures line == AddressLine(regs, ins, params)
    {
      var opcode := ReadHex(ins.placeHolders[0]);
      var s0 := WriteBinary(opcode, PLACE_HOLDER_LENGTHS[0]);
      var imm, rs := ReadAddress(Param(params, "address"), regs);
      var s1 := WriteBinary(rs, PLACE_HOLDER_LENGTHS[1]);
      var s2 := WriteBinary(ReadReg(regs, Param(params, "rt")), PLACE_HOLDER_LENGTHS[2]);
      var s3 := WriteBinary(imm, IMM_LENGTH);
      line := s0 + s1 + s2 + s3;
    }

    /** The field loop of `translate_instruction`: each template field at
        its width, the last one taking the bits that remain. */
    method TranslateFields(params: map<string, string>, lastToken: string, placeHolders: seq<string>)
      returns (line: string)
      requires |placeHolders| <= |PLACE_HOLDER_LENGTHS| + 1
      ensures line == Fields(Env(regs, labels, params, lastToken, pc), placeHolders)
    {
      ghost var pieces := FieldBits(Env(regs, labels, params, lastToken, pc), placeHolders);
      var remaining := INSTRUCTION_LENGTH;
      line := [];
      for i := 0 to |placeHolders|
        invariant line == Concat(pieces[..i])
        invariant i < |placeHolders| ==> remaining == INSTRUCTION_LENGTH - Sum(PLACE_HOLDER_LENGTHS[..i])
      {
        var field := ResolveField(params, lastToken, placeHolders[i]);
        FieldStarts(i);
        var length: nat;
        if i == |placeHolders| - 1 {
          length := remaining;
        } else {
          length := PLACE_HOLDER_LENGTHS[i];
        }
        assert length == FieldWidth(i, |placeHolders|);
        var bits := WriteBinary(field, length);
        FieldBitsAt(Env(regs, labels, params, lastToken, pc), placeHolders, i);
        ConcatStep(pieces, i);
        line := line + bits;
        remaining := remaining - length;
        if i + 1 < |placeHolders| {
          SumStep(PLACE_HOLDER_LENGTHS, i);
        }
      }
      assert pieces[..|placeHolders|] == pieces;
    }

    /** The value one template field takes in `translate_instruction`. */
    method ResolveField(params: map<string, string>, lastToken: string, ph: string) returns (field: int)
      ensures field == FieldValue(Env(regs, labels, params, lastToken, pc), ph)
    {
      if ph in params {
        if ph == "shamt" {
          field := ReadDec(params["shamt"]);
        } else if ph == "target" {
          if params["target"] in labels {
            field := ReadLabel(labels, params["target"]);
          } else {
            field := ReadHex(params["target"]);
          }
        } else {
          var v := params[ph];
          if |v| > 0 && v[0] == '$' {
            field := ReadReg(regs, v);
          } else {
            field := ReadDec(v);
          }
        }
      } else if ph == "Offset" {
        field := TruncDiv(ReadLabel(labels, lastToken) * 4 - pc - 4, 4);
      } else if ph == "rs" {
        field := 0;
      } else {
        field := ReadHex(ph);
      }
    }

    /** `process_line`: a line of two or more tokens advances PC by 4 and
        is translated, its mnemonic found after the first token when that
        token holds a `:`. */
    method ProcessLine(line: string)
      modifies this
      requires WellFormedLine(instructions, line)
      ensures regs == old(regs) && instructions == old(instructions) && labels == old(labels)
      ensures Pass2(pc, output) == Pass2Step(Encoder(regs, labels, instructions), Pass2(old(pc), old(output)), line)
    {
      ghost var r0, l0, c0 := regs, labels, instructions;
      ghost var s0 := Pass2(pc, output);
      var tokens := SplitString(line);
      if |tokens| == 0 {
        StepSkips(Encoder(r0, l0, c0), s0, line);
        return;
      }
      if |tokens| == 1 {
        StepSkips(Encoder(r0, l0, c0), s0, line);
        return;
      }
      pc := pc + 4;
      var firstToken := tokens[0];
      var startOffset := 0;
      if ':' in firstToken {
        startOffset := 1;
      }
      assert startOffset == StartOffset(tokens);
      var translated := TranslateInstruction(tokens, startOffset);
      assert regs == r0 && labels == l0 && instructions == c0 && pc == s0.pc + 4;
      ProcessStep(r0, l0, c0, s0, line, tokens, pc, startOffset, translated);
      output := output + [translated];
      assert regs == r0 && labels == l0 && instructions == c0;
      assert Pass2(pc, output) == Pass2(s0.pc + 4, s0.output + [translated]);
    }

    /** `assemble`: `process_line` on every line until the input ends. */
    method Assemble(lines: seq<string>)
      modifies this
      requires WellFormedProgram(instructions, lines)
      ensures regs == old(regs) && instructions == old(instructions) && labels == old(labels)
      ensures Pass2(pc, output) == Pass2Run(Encoder(regs, labels, instructions), Pass2(old(pc), old(output)), lines)
    {
      for i := 0 to |lines|
        invariant regs == old(regs) && instructions == old(instructions) && labels == old(labels)
        invariant Pass2(pc, output) == Pass2Run(Encoder(regs, labels, instructions), Pass2(old(pc), old(output)), lines[..i])
      {
        assert lines[..i + 1][..i] == lines[..i];
        ProcessLine(lines[i]);
      }
      assert lines[..|lines|] == lines;
    }
  }

  /** `main` without its streams and argument check: pass 1 over the
      lines, the two tables, then pass 2 over the same lines. */
  method AssembleLines(lines: seq<string>) returns (out: seq<string>)
    requires WellFormedProgram(InstructionTable(), lines)
    ensures out == Program(lines)
  {
    var assembler := new Assembler();
    assembler.ScanLabels(lines);
    assembler.InitializeRegNameToInt();
    assembler.InitializeInstructions();
    MergeEmpty(RegisterTable());
    MergeEmpty(InstructionTable());
    MergeEmpty(LabelTable(lines));
    assembler.Assemble(lines);
    out := assembler.output;
  }
}
