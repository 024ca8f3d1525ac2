/** The meaning of `translate_instruction` and `read_address`: how one line
    of tokens becomes a 32-character string of bits, given the register
    table, the label table, the catalog and the program counter. The class
    in the driver module runs the loops of `translate_instruction` and is
    proved to produce `Translate`. */
module Translator {
  import opened Tokenizer
  import opened Numbers
  import opened Registers
  import opened Catalog

  /** `read_label`: `map::operator[]` yields 0 for a label never defined. */
  function ReadLabel(labels: map<string, int>, s: string): int {
    if s in labels then labels[s] else 0
  }

  /** `map::operator[]` on the bound operands: a role bound to no token
      reads as the empty string. */
  function Param(params: map<string, string>, role: string): string {
    if role in params then params[role] else ""
  }

  /** C++ integer division, which truncates toward zero: the remainder
      `a - b * q` has the sign of `a` and is smaller than `b` in size. */
  function TruncDiv(a: int, b: int): (q: int)
    requires b > 0
    ensures var r := a - b * q; (a >= 0 ==> 0 <= r < b) && (a < 0 ==> -b < r <= 0)
  {
    if a >= 0 then a / b else -((-a) / b)
  }

  // ---------------------------------------------------------------------
  // Commas and operand binding.

  /** One trailing comma removed, as the first loop of
      `translate_instruction` does to every token. */
  function StripComma(t: string): string {
    if |t| > 0 && t[|t| - 1] == ',' then t[..|t| - 1] else t
  }

  function StripCommas(tokens: seq<string>): (r: seq<string>)
    ensures |r| == |tokens|
    ensures forall i :: 0 <= i < |tokens| ==> r[i] == StripComma(tokens[i])
  {
    if tokens == [] then [] else StripCommas(tokens[..|tokens| - 1]) + [StripComma(tokens[|tokens| - 1])]
  }

  /** Exactly one comma is removed: a word followed by a comma loses it,
      and only it. */
  lemma StripCommaOfComma(w: string)
    ensures StripComma(w + ",") == w
  {
    assert (w + ",")[..|w|] == w;
  }

  /** A token that does not end with a comma is left alone. */
  lemma StripCommaIdle(w: string)
    requires w == [] || w[|w| - 1] != ','
    ensures StripComma(w) == w
  {
  }

  /** The `params` map after the first k roles have been bound: role i is
      bound to token o + i + 1. */
  function BindParams(roles: seq<string>, tokens: seq<string>, o: nat, k: nat): map<string, string>
    requires k <= |roles| && o + k < |tokens|
  {
    if k == 0 then map[] else BindParams(roles, tokens, o, k - 1)[roles[k - 1] := tokens[o + k]]
  }

  /** Role i is the last of the first k roles with its name. */
  predicate LastRole(roles: seq<string>, i: int, k: nat)
    requires k <= |roles|
  {
    0 <= i < k && forall j :: i < j < k ==> roles[j] != roles[i]
  }

  /** The bound roles are exactly the first k roles, and a role named
      twice is bound to the token of its last occurrence. */
  lemma BindParamsSpec(roles: seq<string>, tokens: seq<string>, o: nat, k: nat)
    requires k <= |roles| && o + k < |tokens|
    ensures forall role :: role in BindParams(roles, tokens, o, k) <==> role in roles[..k]
    ensures forall i :: LastRole(roles, i, k) ==>
      roles[i] in BindParams(roles, tokens, o, k) && BindParams(roles, tokens, o, k)[roles[i]] == tokens[o + i + 1]
  {
    BindParamsDomain(roles, tokens, o, k);
    BindParamsLast(roles, tokens, o, k);
  }

  lemma {:induction false} BindParamsDomain(roles: seq<string>, tokens: seq<string>, o: nat, k: nat)
    requires k <= |roles| && o + k < |tokens|
    ensures forall role :: role in BindParams(roles, tokens, o, k) <==> role in roles[..k]
    decreases k
  {
    if k > 0 {
      BindParamsDomain(roles, tokens, o, k - 1);
      var prev := BindParams(roles, tokens, o, k - 1);
      var next := BindParams(roles, tokens, o, k);
      assert next == prev[roles[k - 1] := tokens[o + k]];
      assert roles[..k] == roles[..k - 1] + [roles[k - 1]];
      forall role
        ensures role in next <==> role in roles[..k]
      {
        assert (role in roles[..k]) == (role in roles[..k - 1] || role == roles[k - 1]);
      }
    }
  }

  lemma {:induction false} BindParamsLast(roles: seq<string>, tokens: seq<string>, o: nat, k: nat)
    requires k <= |roles| && o + k < |tokens|
    ensures forall i :: LastRole(roles, i, k) ==>
      roles[i] in BindParams(roles, tokens, o, k) && BindParams(roles, tokens, o, k)[roles[i]] == tokens[o + i + 1]
    decreases k
  {
    if k > 0 {
      BindParamsLast(roles, tokens, o, k - 1);
      var prev := BindParams(roles, tokens, o, k - 1);
      var next := BindParams(roles, tokens, o, k);
      assert next == prev[roles[k - 1] := tokens[o + k]];
      forall i | LastRole(roles, i, k)
        ensures roles[i] in next && next[roles[i]] == tokens[o + i + 1]
      {
        if i < k - 1 {
          assert roles[k - 1] != roles[i];
          assert LastRole(roles, i, k - 1);
        }
      }
    }
  }

  /** The last role is always bound to the token after the operands
      before it. */
  lemma BindLastRole(roles: seq<string>, tokens: seq<string>, o: nat)
    requires |roles| >= 1 && o + |roles| < |tokens|
    ensures Param(BindParams(roles, tokens, o, |roles|), roles[|roles| - 1]) == tokens[o + |roles|]
  {
    var k := |roles|;
    assert BindParams(roles, tokens, o, k) == BindParams(roles, tokens, o, k - 1)[roles[k - 1] := tokens[o + k]];
  }

  // ---------------------------------------------------------------------
  // Template fields.

  /** What a template field can draw on: the register and label tables,
      the bound operands, the last token of the line (a branch target) and
      the program counter. */
  datatype Env = Env(
    regs: map<string, int>,
    labels: map<string, int>,
    params: map<string, string>,
    lastToken: string,
    pc: int)

  /** The value of one template field, as the field loop of
      `translate_instruction` computes it. */
  function FieldValue(env: Env, ph: string): int {
    if ph in env.params then
      var v := env.params[ph];
      if ph == "shamt" then DecValue(v)
      else if ph == "target" then (if v in env.labels then env.labels[v] else HexValue(v))
      else if |v| > 0 && v[0] == '$' then ReadReg(env.regs, v)
      else DecValue(v)
    else if ph == "Offset" then TruncDiv(ReadLabel(env.labels, env.lastToken) * 4 - env.pc - 4, 4)
    else if ph == "rs" then 0
    else HexValue(ph)
  }

  function Sum(s: seq<nat>): nat {
    if s == [] then 0 else Sum(s[..|s| - 1]) + s[|s| - 1]
  }

  /** Where field i starts when it is not the last: the widths before it
      add up to 0, 6, 11, 16, 21, 26 and 32 bits. */
  lemma FieldStarts(i: nat)
    requires i <= |PLACE_HOLDER_LENGTHS|
    ensures Sum(PLACE_HOLDER_LENGTHS[..i]) == [0, 6, 11, 16, 21, 26, 32][i]
  {
    var w := PLACE_HOLDER_LENGTHS;
    assert Sum(w[..0]) == 0;
    assert w[..1][..0] == w[..0];
    assert Sum(w[..1]) == 6;
    assert w[..2][..1] == w[..1];
    assert Sum(w[..2]) == 11;
    assert w[..3][..2] == w[..2];
    assert Sum(w[..3]) == 16;
    assert w[..4][..3] == w[..3];
    assert Sum(w[..4]) == 21;
    assert w[..5][..4] == w[..4];
    assert Sum(w[..5]) == 26;
    assert w[..6][..5] == w[..5];
    assert Sum(w[..6]) == 32;
  }

  /** Width of field i of a template of `count` fields: from
      `PLACE_HOLDER_LENGTHS`, except that the last field takes the rest of
      the 32 bits. */
  function FieldWidth(i: nat, count: nat): (w: nat)
    requires i < count <= |PLACE_HOLDER_LENGTHS| + 1
    ensures i < count - 1 ==> w == PLACE_HOLDER_LENGTHS[i]
    ensures i == count - 1 ==> w + Sum(PLACE_HOLDER_LENGTHS[..i]) == INSTRUCTION_LENGTH
  {
    FieldStarts(i);
    if i == count - 1 then INSTRUCTION_LENGTH - Sum(PLACE_HOLDER_LENGTHS[..i]) else PLACE_HOLDER_LENGTHS[i]
  }

  /** The widths of all `count` fields of a template, in order. */
  function FieldWidths(count: nat): (ws: seq<nat>)
    requires 1 <= count <= |PLACE_HOLDER_LENGTHS| + 1
    ensures |ws| == count
  {
    seq(count, i requires 0 <= i < count => FieldWidth(i, count))
  }

  /** Whatever the number of fields, their widths fill exactly the 32 bits
      of an instruction, every field but the last at its table width. */
  lemma FieldWidthsTotal(count: nat)
    requires 1 <= count <= |PLACE_HOLDER_LENGTHS| + 1
    ensures FieldWidths(count)[..count - 1] == PLACE_HOLDER_LENGTHS[..count - 1]
    ensures Sum(FieldWidths(count)) == INSTRUCTION_LENGTH
  {
    var ws := FieldWidths(count);
    assert ws[..count - 1] == PLACE_HOLDER_LENGTHS[..count - 1];
    assert ws[count - 1] == FieldWidth(count - 1, count);
  }

  /** The fields of a template, each written at its width. */
  function FieldBits(env: Env, placeHolders: seq<string>): (r: seq<string>)
    requires |placeHolders| <= |PLACE_HOLDER_LENGTHS| + 1
    ensures |r| == |placeHolders|
  {
    seq(|placeHolders|, i requires 0 <= i < |placeHolders| => Bits(FieldValue(env, placeHolders[i]), FieldWidth(i, |placeHolders|)))
  }

  /** Field i is the value of place holder i written at width i. */
  lemma FieldBitsAt(env: Env, placeHolders: seq<string>, i: nat)
    requires |placeHolders| <= |PLACE_HOLDER_LENGTHS| + 1 && i < |placeHolders|
    ensures FieldBits(env, placeHolders)[i] == Bits(FieldValue(env, placeHolders[i]), FieldWidth(i, |placeHolders|))
  {
  }

  /** The pieces written one after the other. */
  function Concat(pieces: seq<string>): string {
    if pieces == [] then [] else Concat(pieces[..|pieces| - 1]) + pieces[|pieces| - 1]
  }

  lemma ConcatStep(pieces: seq<string>, i: nat)
    requires i < |pieces|
    ensures Concat(pieces[..i + 1]) == Concat(pieces[..i]) + pieces[i]
  {
    assert pieces[..i + 1][..i] == pieces[..i];
  }

  lemma SumStep(s: seq<nat>, i: nat)
    requires i < |s|
    ensures Sum(s[..i + 1]) == Sum(s[..i]) + s[i]
  {
    assert s[..i + 1][..i] == s[..i];
  }

  /** The line the field loop writes: all fields, in template order. */
  function Fields(env: Env, placeHolders: seq<string>): string
    requires |placeHolders| <= |PLACE_HOLDER_LENGTHS| + 1
  {
    Concat(FieldBits(env, placeHolders))
  }

  /** Piece i of a concatenation starts where the pieces before it end. */
  lemma {:induction false} ConcatAt(pieces: seq<string>, i: nat, k: nat)
    requires i < k <= |pieces|
    ensures |Concat(pieces[..i])| + |pieces[i]| <= |Concat(pieces[..k])|
    ensures Concat(pieces[..k])[|Concat(pieces[..i])|..|Concat(pieces[..i])| + |pieces[i]|] == pieces[i]
    decreases k
  {
    var g := Concat(pieces[..k - 1]);
    assert pieces[..k][..k - 1] == pieces[..k - 1];
    assert Concat(pieces[..k]) == g + pieces[k - 1];
    if i < k - 1 {
      ConcatAt(pieces, i, k - 1);
      SliceOfPrefix(g, pieces[k - 1], |Concat(pieces[..i])|, |Concat(pieces[..i])| + |pieces[i]|);
    } else {
      SliceOfSuffix(g, pieces[k - 1]);
    }
  }

  lemma SliceOfPrefix(g: string, b: string, lo: nat, hi: nat)
    requires lo <= hi <= |g|
    ensures (g + b)[lo..hi] == g[lo..hi]
  {
  }

  lemma SliceOfSuffix(g: string, b: string)
    ensures (g + b)[|g|..|g| + |b|] == b
  {
  }

  /** The fields before field k take exactly the widths before it, so a
      template of one to seven fields fills exactly 32 bits, all `0` or
      `1`. */
  lemma FieldsLength(env: Env, placeHolders: seq<string>, k: nat)
    requires 1 <= |placeHolders| <= |PLACE_HOLDER_LENGTHS| + 1
    requires k <= |placeHolders|
    ensures IsBinary(Concat(FieldBits(env, placeHolders)[..k]))
    ensures k < |placeHolders| ==> |Concat(FieldBits(env, placeHolders)[..k])| == Sum(PLACE_HOLDER_LENGTHS[..k])
    ensures k == |placeHolders| ==> |Concat(FieldBits(env, placeHolders)[..k])| == INSTRUCTION_LENGTH
  {
    var pieces := FieldBits(env, placeHolders);
    forall j | 0 <= j < |placeHolders|
      ensures |pieces[j]| == FieldWidth(j, |placeHolders|) && IsBinary(pieces[j])
    {
      FieldBitsAt(env, placeHolders, j);
      BitsShape(FieldValue(env, placeHolders[j]), FieldWidth(j, |placeHolders|));
    }
    PiecesLength(pieces, |placeHolders|, k);
  }

  /** Pieces of the field widths, each all `0` or `1`, put end to end. */
  lemma {:induction false} PiecesLength(pieces: seq<string>, count: nat, k: nat)
    requires 1 <= count <= |PLACE_HOLDER_LENGTHS| + 1 && |pieces| == count && k <= count
    requires forall j :: 0 <= j < count ==> |pieces[j]| == FieldWidth(j, count) && IsBinary(pieces[j])
    ensures IsBinary(Concat(pieces[..k]))
    ensures k < count ==> |Concat(pieces[..k])| == Sum(PLACE_HOLDER_LENGTHS[..k])
    ensures k == count ==> |Concat(pieces[..k])| == INSTRUCTION_LENGTH
    decreases k
  {
    if k > 0 {
      var before := Concat(pieces[..k - 1]);
      var w := FieldWidth(k - 1, count);
      PiecesLength(pieces, count, k - 1);
      ConcatStep(pieces, k - 1);
      BinaryAppend(before, pieces[k - 1]);
      assert |Concat(pieces[..k])| == |before| + w;
      if k - 1 > 0 {
        assert |before| == Sum(PLACE_HOLDER_LENGTHS[..k - 1]);
      } else {
        assert |before| == 0 == Sum(PLACE_HOLDER_LENGTHS[..0]);
      }
      if k < count {
        SumStep(PLACE_HOLDER_LENGTHS, k - 1);
      }
    }
  }

  lemma BinaryAppend(a: string, b: string)
    requires IsBinary(a) && IsBinary(b)
    ensures IsBinary(a + b)
  {
    assert forall k :: 0 <= k < |b| ==> (a + b)[|a| + k] == b[k];
  }

  /** Every template of one to seven fields gives exactly 32 bits. */
  lemma FieldsShape(env: Env, placeHolders: seq<string>)
    requires 1 <= |placeHolders| <= |PLACE_HOLDER_LENGTHS| + 1
    ensures |Fields(env, placeHolders)| == INSTRUCTION_LENGTH && IsBinary(Fields(env, placeHolders))
  {
    FieldsLength(env, placeHolders, |placeHolders|);
    assert FieldBits(env, placeHolders)[..|placeHolders|] == FieldBits(env, placeHolders);
  }

  /** Field i occupies the bits from the sum of the widths before it;
      reading them back as unsigned binary gives the field's value modulo
      2 to the power of its width. */
  lemma FieldAt(env: Env, placeHolders: seq<string>, i: nat)
    requires 1 <= |placeHolders| <= |PLACE_HOLDER_LENGTHS| + 1
    requires i < |placeHolders|
    ensures
      var start := Sum(PLACE_HOLDER_LENGTHS[..i]);
      var w := FieldWidth(i, |placeHolders|);
      var line := Fields(env, placeHolders);
      && start + w <= |line|
      && line[start..start + w] == Bits(FieldValue(env, placeHolders[i]), w)
      && BinaryValue(line[start..start + w]) == FieldValue(env, placeHolders[i]) % Pow2(w)
  {
    var pieces := FieldBits(env, placeHolders);
    var w := FieldWidth(i, |placeHolders|);
    assert pieces[..|placeHolders|] == pieces;
    ConcatAt(pieces, i, |placeHolders|);
    FieldBitsAt(env, placeHolders, i);
    FieldsLength(env, placeHolders, i);
    BitsShape(FieldValue(env, placeHolders[i]), w);
    BitsValue(FieldValue(env, placeHolders[i]), w);
  }

  // ---------------------------------------------------------------------
  // Address operands: read_address.

  /** Index of the first `(`. */
  function OpenParen(s: string): (i: nat)
    requires '(' in s
    ensures i < |s| && s[i] == '(' && '(' !in s[..i]
  {
    if s[0] == '(' then 0
    else
      assert s == [s[0]] + s[1..];
      var i := 1 + OpenParen(s[1..]);
      assert s[..i] == [s[0]] + s[1..][..i - 1];
      i
  }

  /** The immediate of `imm(reg)`: the decimal text before the first `(`,
      or 0 when there is none. */
  function AddressImm(s: string): int
    requires '(' in s
  {
    var i := OpenParen(s);
    if i != 0 then DecValue(s[..i]) else 0
  }

  /** The register text of `imm(reg)`: what lies between the first `(` and
      the last character. When `(` is the last character the length passed
      to `substr` wraps around and the text is empty. */
  function AddressRegText(s: string): string
    requires '(' in s
  {
    var i := OpenParen(s);
    if i + 2 <= |s| then s[i + 1..|s| - 1] else ""
  }

  /** `read_address`: scans for the first `(`; the offset before it is read
      as decimal, and the register between it and the closing character is
      looked up. Without a `(` the original leaves the register unset, so
      a `(` is required. */
  method ReadAddress(s: string, regs: map<string, int>) returns (imm: int, reg: int)
    requires '(' in s
    ensures imm == AddressImm(s)
    ensures reg == ReadReg(regs, AddressRegText(s))
  {
    imm := 0;
    var i := 0;
    while i < |s|
      invariant 0 <= i <= OpenParen(s)
      invariant '(' !in s[..i]
    {
      if s[i] == '(' {
        if i != 0 {
          imm := ReadDec(s[..i]);
        }
        var text := if i + 2 <= |s| then s[i + 1..|s| - 1] else "";
        reg := ReadReg(regs, text);
        return;
      }
      assert s[..i + 1] == s[..i] + [s[i]];
      i := i + 1;
    }
    assert false;
  }

  /** Round trip: an offset written in decimal before a register name in
      parentheses reads back as that offset and that register. */
  lemma AddressOfText(x: int, r: string)
    ensures AddressImm(IntString(x) + "(" + r + ")") == x
    ensures AddressRegText(IntString(x) + "(" + r + ")") == r
  {
    var d := IntString(x);
    var s := d + "(" + r + ")";
    assert '(' !in d by {
      if x < 0 {
        assert d == "-" + NatString(-x);
      }
    }
    assert s[|d|] == '(';
    assert s[..|d|] == d;
    var i := OpenParen(s);
    assert i == |d|;
    ReadDecOfString(x);
    assert s[i + 1..|s| - 1] == r;
  }

  /** An empty offset before `(` gives immediate 0. */
  lemma AddressWithoutOffset(r: string)
    ensures AddressImm("(" + r + ")") == 0
    ensures AddressRegText("(" + r + ")") == r
  {
    var s := "(" + r + ")";
    assert s[0] == '(';
    assert s[1..|s| - 1] == r;
  }

  // ---------------------------------------------------------------------
  // translate_instruction.

  /** What `translate_instruction` needs to be defined: a catalogued
      mnemonic at o, a token for every operand role, and a `(` in an
      address operand. */
  predicate WellFormedInstruction(catalog: map<string, Instruction>, tokens: seq<string>, o: nat) {
    && o < |tokens|
    && tokens[o] in catalog
    && ValidEntry(catalog[tokens[o]])
    && o + |catalog[tokens[o]].params| < |tokens|
    && (LoadStore(catalog[tokens[o]]) ==>
          '(' in StripComma(tokens[o + |catalog[tokens[o]].params|]))
  }

  /** The last operand role is `address`: a load or store. */
  predicate LoadStore(ins: Instruction)
    requires 1 <= |ins.params|
  {
    ins.params[|ins.params| - 1] == "address"
  }

  /** A load or store: opcode from template field 0, then the base
      register, the `rt` register and the 16-bit immediate. */
  function AddressLine(regs: map<string, int>, ins: Instruction, params: map<string, string>): string
    requires |ins.placeHolders| >= 1 && '(' in Param(params, "address")
  {
    var address := Param(params, "address");
    Bits(HexValue(ins.placeHolders[0]), PLACE_HOLDER_LENGTHS[0])
      + Bits(ReadReg(regs, AddressRegText(address)), PLACE_HOLDER_LENGTHS[1])
      + Bits(ReadReg(regs, Param(params, "rt")), PLACE_HOLDER_LENGTHS[2])
      + Bits(AddressImm(address), IMM_LENGTH)
  }

  /** The line `translate_instruction` writes for the tokens, the mnemonic
      being at index o. */
  function Translate(regs: map<string, int>, labels: map<string, int>, catalog: map<string, Instruction>,
                     pc: int, tokens: seq<string>, o: nat): string
    requires WellFormedInstruction(catalog, tokens, o)
  {
    var ins := catalog[tokens[o]];
    var stripped := StripCommas(tokens);
    var params := BindParams(ins.params, stripped, o, |ins.params|);
    BindLastRole(ins.params, stripped, o);
    Layout(regs, labels, pc, ins, stripped, params)
  }

  /** The layout chosen by the last operand role: the load/store layout
      for `address`, the template's fields otherwise. */
  function Layout(regs: map<string, int>, labels: map<string, int>, pc: int,
                  ins: Instruction, stripped: seq<string>, params: map<string, string>): string
    requires ValidEntry(ins) && |stripped| > 0
    requires LoadStore(ins) ==> '(' in Param(params, "address")
  {
    if LoadStore(ins) then
      AddressLine(regs, ins, params)
    else
      Fields(Env(regs, labels, params, stripped[|stripped| - 1], pc), ins.placeHolders)
  }

  /** The entry, stripped tokens and bound operands `translate_instruction`
      computes before it chooses a layout. */
  predicate Prepared(catalog: map<string, Instruction>, tokens: seq<string>, o: nat,
                     ins: Instruction, stripped: seq<string>, params: map<string, string>)
    requires WellFormedInstruction(catalog, tokens, o)
  {
    && ins == catalog[tokens[o]]
    && stripped == StripCommas(tokens)
    && params == BindParams(ins.params, stripped, o, |ins.params|)
  }

  /** When the last operand role is `address`, the line is the load/store
      layout. */
  lemma TranslateAddressCase(regs: map<string, int>, labels: map<string, int>, catalog: map<string, Instruction>,
                             pc: int, tokens: seq<string>, o: nat,
                             ins: Instruction, stripped: seq<string>, params: map<string, string>)
    requires WellFormedInstruction(catalog, tokens, o)
    requires Prepared(catalog, tokens, o, ins, stripped, params)
    requires LoadStore(ins)
    ensures |ins.placeHolders| >= 1 && '(' in Param(params, "address")
    ensures Translate(regs, labels, catalog, pc, tokens, o) == AddressLine(regs, ins, params)
  {
    BindLastRole(ins.params, stripped, o);
    assert Translate(regs, labels, catalog, pc, tokens, o) == Layout(regs, labels, pc, ins, stripped, params);
    LayoutAddress(regs, labels, pc, ins, stripped, params);
  }

  /** Otherwise the line is the template's fields. */
  lemma TranslateFieldsCase(regs: map<string, int>, labels: map<string, int>, catalog: map<string, Instruction>,
                            pc: int, tokens: seq<string>, o: nat,
                            ins: Instruction, stripped: seq<string>, params: map<string, string>)
    requires WellFormedInstruction(catalog, tokens, o)
    requires Prepared(catalog, tokens, o, ins, stripped, params)
    requires !LoadStore(ins)
    ensures 1 <= |ins.placeHolders| <= |PLACE_HOLDER_LENGTHS| + 1 && |stripped| == |tokens|
    ensures Translate(regs, labels, catalog, pc, tokens, o)
         == Fields(Env(regs, labels, params, stripped[|stripped| - 1], pc), ins.placeHolders)
  {
    assert Translate(regs, labels, catalog, pc, tokens, o) == Layout(regs, labels, pc, ins, stripped, params);
    LayoutFields(regs, labels, pc, ins, stripped, params);
  }

  /** Field p of a template of `count` fields, read from the line at the
      bits the widths before it leave, is v written in its width. */
  predicate FieldHolds(line: string, p: nat, count: nat, v: int)
    requires p < count <= |PLACE_HOLDER_LENGTHS| + 1
  {
    var start := Sum(PLACE_HOLDER_LENGTHS[..p]);
    var w := FieldWidth(p, count);
    start + w <= |line| && line[start..start + w] == Bits(v, w)
  }

  /** An `Offset` field not bound to an operand is computed from the
      label of the last token and the PC. */
  lemma OffsetValue(env: Env)
    requires "Offset" !in env.params
    ensures FieldValue(env, "Offset") == TruncDiv(ReadLabel(env.labels, env.lastToken) * 4 - env.pc - 4, 4)
  {
  }

  /** A template field named `Offset`, in an entry that has no operand
      role of that name, of a branch at instruction index i (PC = 4 * i)
      whose last operand, its comma removed, is a label read as
      instruction index i + d + 1: it holds the offset d at its bits and
      width. */
  lemma TranslateBranch(regs: map<string, int>, labels: map<string, int>, catalog: map<string, Instruction>,
                        i: int, d: int, tokens: seq<string>, o: nat, p: nat)
    requires WellFormedInstruction(catalog, tokens, o)
    requires
      var ins := catalog[tokens[o]];
      && !LoadStore(ins) && "Offset" !in ins.params
      && p < |ins.placeHolders| && ins.placeHolders[p] == "Offset"
    requires ReadLabel(labels, StripComma(tokens[|tokens| - 1])) == i + d + 1
    ensures FieldHolds(Translate(regs, labels, catalog, 4 * i, tokens, o), p, |catalog[tokens[o]].placeHolders|, d)
  {
    var ins := catalog[tokens[o]];
    var stripped := StripCommas(tokens);
    var params := BindParams(ins.params, stripped, o, |ins.params|);
    TranslateFieldsCase(regs, labels, catalog, 4 * i, tokens, o, ins, stripped, params);
    BindParamsSpec(ins.params, stripped, o, |ins.params|);
    assert ins.params[..|ins.params|] == ins.params;
    var env := Env(regs, labels, params, stripped[|stripped| - 1], 4 * i);
    assert "Offset" !in params;
    BranchField(env, ins.placeHolders, p, i, d);
  }

  /** The same over the fields of one environment. */
  lemma BranchField(env: Env, placeHolders: seq<string>, p: nat, i: int, d: int)
    requires 1 <= |placeHolders| <= |PLACE_HOLDER_LENGTHS| + 1
    requires p < |placeHolders| && placeHolders[p] == "Offset"
    requires "Offset" !in env.params && env.pc == 4 * i
    requires ReadLabel(env.labels, env.lastToken) == i + d + 1
    ensures FieldHolds(Fields(env, placeHolders), p, |placeHolders|, d)
  {
    OffsetField(env, i, i + d + 1);
    assert FieldValue(env, placeHolders[p]) == d;
    FieldAt(env, placeHolders, p);
  }

  lemma LayoutFields(regs: map<string, int>, labels: map<string, int>, pc: int,
                     ins: Instruction, stripped: seq<string>, params: map<string, string>)
    requires ValidEntry(ins) && |stripped| > 0
    requires !LoadStore(ins)
    ensures Layout(regs, labels, pc, ins, stripped, params)
         == Fields(Env(regs, labels, params, stripped[|stripped| - 1], pc), ins.placeHolders)
  {
    var fields := Fields(Env(regs, labels, params, stripped[|stripped| - 1], pc), ins.placeHolders);
    assert Layout(regs, labels, pc, ins, stripped, params) == fields;
  }

  lemma LayoutAddress(regs: map<string, int>, labels: map<string, int>, pc: int,
                      ins: Instruction, stripped: seq<string>, params: map<string, string>)
    requires ValidEntry(ins) && |stripped| > 0
    requires LoadStore(ins) && '(' in Param(params, "address")
    ensures Layout(regs, labels, pc, ins, stripped, params) == AddressLine(regs, ins, params)
  {
    var line := AddressLine(regs, ins, params);
    assert Layout(regs, labels, pc, ins, stripped, params) == line;
  }

  /** A load or store line is 32 bits: 6 + 5 + 5 + 16. */
  lemma AddressLineShape(regs: map<string, int>, ins: Instruction, params: map<string, string>)
    requires |ins.placeHolders| >= 1 && '(' in Param(params, "address")
    ensures |AddressLine(regs, ins, params)| == INSTRUCTION_LENGTH
    ensures IsBinary(AddressLine(regs, ins, params))
  {
    var address := Param(params, "address");
    var op := Bits(HexValue(ins.placeHolders[0]), PLACE_HOLDER_LENGTHS[0]);
    var rs := Bits(ReadReg(regs, AddressRegText(address)), PLACE_HOLDER_LENGTHS[1]);
    var rt := Bits(ReadReg(regs, Param(params, "rt")), PLACE_HOLDER_LENGTHS[2]);
    var imm := Bits(AddressImm(address), IMM_LENGTH);
    BitsShape(HexValue(ins.placeHolders[0]), PLACE_HOLDER_LENGTHS[0]);
    BitsShape(ReadReg(regs, AddressRegText(address)), PLACE_HOLDER_LENGTHS[1]);
    BitsShape(ReadReg(regs, Param(params, "rt")), PLACE_HOLDER_LENGTHS[2]);
    BitsShape(AddressImm(address), IMM_LENGTH);
    BinaryAppend(op, rs);
    BinaryAppend(op + rs, rt);
    BinaryAppend(op + rs + rt, imm);
    assert AddressLine(regs, ins, params) == op + rs + rt + imm;
  }

  /** Every translated line is exactly 32 characters, each `0` or `1`. */
  lemma TranslateShape(regs: map<string, int>, labels: map<string, int>, catalog: map<string, Instruction>,
                       pc: int, tokens: seq<string>, o: nat)
    requires WellFormedInstruction(catalog, tokens, o)
    ensures |Translate(regs, labels, catalog, pc, tokens, o)| == INSTRUCTION_LENGTH
    ensures IsBinary(Translate(regs, labels, catalog, pc, tokens, o))
  {
    var ins := catalog[tokens[o]];
    var stripped := StripCommas(tokens);
    var params := BindParams(ins.params, stripped, o, |ins.params|);
    if LoadStore(ins) {
      TranslateAddressCase(regs, labels, catalog, pc, tokens, o, ins, stripped, params);
      AddressLineShape(regs, ins, params);
    } else {
      TranslateFieldsCase(regs, labels, catalog, pc, tokens, o, ins, stripped, params);
      FieldsShape(Env(regs, labels, params, stripped[|stripped| - 1], pc), ins.placeHolders);
    }
  }

  /** A branch field when the instruction index of the branch is i (PC =
      4 * i) and its label is at instruction index j: the offset is
      j - i - 1 exactly; an undefined label counts as index 0. */
  lemma OffsetField(env: Env, i: int, j: int)
    requires "Offset" !in env.params && env.pc == 4 * i
    requires ReadLabel(env.labels, env.lastToken) == j
    ensures FieldValue(env, "Offset") == j - i - 1
  {
    OffsetValue(env);
    ExactOffset(i, j);
  }

  /** The distance from PC + 4 = 4 * i + 4 to the label at 4 * j is a
      multiple of 4, so the truncating division is exact. */
  lemma ExactOffset(i: int, j: int)
    ensures TruncDiv(j * 4 - 4 * i - 4, 4) == j - i - 1
  {
    var a := j * 4 - 4 * i - 4;
    assert a == 4 * (j - i - 1);
    if a >= 0 {
      DivModUnique(a, 4, j - i - 1, 0);
    } else {
      DivModUnique(-a, 4, -(j - i - 1), 0);
    }
  }
}
