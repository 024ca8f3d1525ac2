# MIPS assembler: a Dafny model

This project models `MIPS_assembler.cpp`, a two-pass, table-driven
translator. It reads MIPS assembly text and produces one 32-character
string of `0`/`1` per instruction. The model covers everything in that
file except stream handling.

- **Tokenizer** (`tokenizer.dfy`): `split_string` is a loop method. It is
  proved equal to the reference function `Tokens`. Lemmas state the
  tokenizer's promises:
  - every token is non-empty and holds no blank or `#`;
  - text after `#` is ignored;
  - a line yields nothing exactly when it is blank;
  - splitting the words joined by spaces gives them back.
- **Numbers** (`numbers.dfy`): `read_hex`, `read_dec` and `write_binary`
  are accumulator loops, each proved against a function. The lemmas
  cover:
  - round trips of the readers;
  - the shape of `write_binary`'s output;
  - reading a written value back gives `n mod 2^length`, so negative
    values are in two's complement.
- **Registers** (`registers.dfy`): the 32-name table `reg_names`, and
  proof that `initialize_reg_name_to_int` builds a bijection onto 0..31.
- **Catalog** (`catalog.dfy`): the 77-row tables `INSTRUCTIONS` and
  `PLACE_HOLDERS`. Each row is kept as its words; the row text is the
  words joined by single spaces. The lemmas show:
  - the tokenizer splits each row back into its words;
  - the map keeps the last row stored under each mnemonic, so the second
    `msub` row wins.
- **Translator** (`translator.dfy`): `translate_instruction` as a
  function of the register table, the label table, the catalog, `PC` and
  the tokens. It covers:
  - comma stripping;
  - operand binding;
  - field resolution;
  - the field widths {6,5,5,5,5,6}, where the last field takes the rest
    of the 32 bits;
  - the load/store layout for `imm(reg)` operands.

  It is proved that every translated line is 32 binary characters, and
  that the `Offset` field of a branch translated at `PC = 4i`, whose last
  operand is a label read as index i + d + 1, holds d.
- **Driver** (`driver.dfy`): the globals become the class `Assembler`,
  whose loop methods are proved against functions:
  - `scan_labels` against `LabelTable`;
  - `process_line` and `assemble` against `Pass2Step` and `Pass2Run`;
  - the two initialisers against `RegisterTable` and `InstructionTable`.

  Lemmas tie the two passes together. `PC` starts at -4 and rises by 4
  on each line of two or more tokens. So the k-th output line is encoded
  with `PC = 4k`, which is the instruction index pass 1 gives the labels.

The input file is a `seq<string>` of lines, and the output stream is the
field `output: seq<string>`. `AssembleLines` runs the steps of `main` in
order.

Three behaviours of the code are easy to misread:

- Pass 2 treats the first token as a label when it holds a `:` anywhere
  (`StartOffset`). Pass 1 asks for a `:` at the end (`EndsWithColon`).
- Pass 2 skips every single-token line, not only a lone label.
- `PC` is raised before the line is translated, starting from -4.

## Model

| member | source | states |
|---|---|---|
| Tokenizer.SplitString | MIPS_assembler.cpp:154-187 | the loop returns exactly `Tokens(raw)`: the maximal runs of characters other than space and tab before the first `#`, in source order |
| Tokenizer.RunLength | MIPS_assembler.cpp:169-174 | a token opened at the front runs up to, and not including, the first space, tab or `#` (or the end of the line) |
| Tokenizer.CloseStep | MIPS_assembler.cpp:170-174 | a delimiter after a run of non-delimiters pushes that run as the next token, and splitting continues from the delimiter |
| Tokenizer.LastToken | MIPS_assembler.cpp:182-184 | a token still open at the end of the line is pushed as the last token |
| Tokenizer.CommentEnds | MIPS_assembler.cpp:161-162 | proof step (one unfolding): a `#` between tokens ends the line: the tokens so far are all of them |
| Tokenizer.TokensAreTokens | MIPS_assembler.cpp:170-184 | every returned token is non-empty and contains no space, tab or `#` |
| Tokenizer.CommentIgnored | MIPS_assembler.cpp:161-176 | `a + "#" + b` splits exactly like `a`: nothing after the first `#` counts, even inside a token |
| Tokenizer.NoTokensIffBlank | MIPS_assembler.cpp:154-187 | the result is empty if and only if every character before the first `#` is a space or tab |
| Tokenizer.TokensOfSpaced | MIPS_assembler.cpp:163-164 | with no `#` in `a`, `a + " " + b` splits into the tokens of `a` followed by those of `b` |
| Tokenizer.TokenAlone | MIPS_assembler.cpp:182-184 | a line that is one token splits into exactly that token |
| Tokenizer.TokensOfJoin | MIPS_assembler.cpp:154-187 | splitting tokens joined by single spaces gives the same tokens back (round trip) |
| Tokenizer.TrailingBlankIgnored | MIPS_assembler.cpp:163-164 | a trailing blank adds no token, as in the row `"mult rs rt "` |
| Numbers.ReadHex | MIPS_assembler.cpp:237-258 | the loop returns `HexValue(s)`: one character is one digit, a longer string has its first two characters skipped and the rest read base 16 |
| Numbers.ReadHexSingle | MIPS_assembler.cpp:240-245 | a single character `0`-`9`, `a`-`f` reads as that digit's value |
| Numbers.ReadHexOfPrefixed | MIPS_assembler.cpp:247-254 | `"0x"` followed by the lowercase hex digits of n reads back as n |
| Numbers.HexDigitsNonNegative | MIPS_assembler.cpp:247-254 | the digits after the prefix, when all are hex digits, never give a negative value |
| Numbers.ReadDec | MIPS_assembler.cpp:270-282 | the loop returns `DecValue(s)`: the decimal value of the digits, negated when a `-` occurs |
| Numbers.DecDigitsSkipMinus | MIPS_assembler.cpp:274-277 | a `-` adds no digit to the accumulated value |
| Numbers.ReadDecOfString | MIPS_assembler.cpp:270-282 | the decimal text of any integer, negative ones included, reads back as that integer |
| Numbers.WriteBinary | MIPS_assembler.cpp:300-309 | the buffer filled from the end while shifting is `Bits(n, length)` |
| Numbers.BitsShape | MIPS_assembler.cpp:300-309 | exactly `length` characters, each `0` or `1` |
| Numbers.BitsValue | MIPS_assembler.cpp:303-307 | read back as unsigned binary, most significant bit first, the text is `n mod 2^length` |
| Numbers.BitsOfValue | MIPS_assembler.cpp:303-307 | writing the value of a binary string at its own length gives the string back |
| Numbers.BitsWrap | MIPS_assembler.cpp:303-307 | only `n mod 2^length` matters: writing n and writing its residue give the same text |
| Numbers.TwosComplement | MIPS_assembler.cpp:298-307 | a negative n within range is written as `2^length + n`, its two's complement |
| Registers.NamesDistinct | MIPS_assembler.cpp:125-129 | the 32 register names are pairwise distinct and each begins with `$` |
| Registers.IndexMapSpec | MIPS_assembler.cpp:432-435 | after k iterations each of the first k names maps to its index, and no other key is present |
| Registers.RegisterTableBijection | MIPS_assembler.cpp:432-435 | the table maps the 32 names one-to-one onto 0..31, each to its index in `reg_names` |
| Registers.ReadRegSpec | MIPS_assembler.cpp:262 | `read_reg` is total: every string reads as a number in 0..31, the index of the name in `reg_names` when it is a register name and 0 (the value `map::operator[]` inserts) otherwise |
| Registers.UnknownRegisterIsZero | MIPS_assembler.cpp:262 | a name that is not a register reads as 0 |
| Catalog.RowsDeserialise | MIPS_assembler.cpp:442-443 | splitting row i of each table with the tokenizer yields exactly the row's words |
| Catalog.TokenCounts | MIPS_assembler.cpp:442-443 | every mnemonic row splits into 2 to 4 words and every template into 2 to 6 |
| Catalog.RowWords | MIPS_assembler.cpp:445-452 | row i is stored under its first word, with the other words as operand roles and the template words as fields |
| Catalog.RowFromTokens | MIPS_assembler.cpp:442-452 | proof step (one unfolding): the entry built from the two split rows is the entry for row i |
| Catalog.StoreNext | MIPS_assembler.cpp:452 | proof step (one unfolding): storing row i overwrites the entry under the row's mnemonic |
| Catalog.StoreSpec | MIPS_assembler.cpp:441-453 | a mnemonic is in the map exactly when some row carries it, and its entry is that of the last such row |
| Catalog.StoredFromLast | MIPS_assembler.cpp:441-453 | every mnemonic in the map comes from a last row carrying it |
| Catalog.CatalogShape | MIPS_assembler.cpp:438-454 | every stored entry has 1 to 3 operand roles and 2 to 6 template fields |
| Catalog.MsubRow | MIPS_assembler.cpp:40-41 | rows 6 and 7 are both `msub rs rt`, with templates ending in 4 and 5 |
| Catalog.NoOffsetRole | MIPS_assembler.cpp:10-30 | no catalog entry has an operand role named `Offset`, so an `Offset` field is always computed from the label and never read from an operand |
| Catalog.LaterMsubKept | MIPS_assembler.cpp:441-453 | the duplicate `msub` row stored last wins: the table holds the template ending in 5, not the one ending in 4 |
| Translator.TruncDiv | MIPS_assembler.cpp:376-377 | C++ division truncates toward zero: the remainder `a - b*q` has the sign of `a` and is smaller than `b` in size, for negative dividends too |
| Translator.StripCommaOfComma | MIPS_assembler.cpp:324-325 | a token ending in `,` loses exactly that comma |
| Translator.StripCommaIdle | MIPS_assembler.cpp:324-325 | a token not ending in `,` is unchanged |
| Translator.StripCommas | MIPS_assembler.cpp:323-326 | every token has one trailing comma stripped, and the number of tokens is unchanged |
| Translator.BindParamsSpec | MIPS_assembler.cpp:329-331 | the bound roles are exactly the entry's roles, and each is bound to the token after the mnemonic at its last position |
| Translator.BindLastRole | MIPS_assembler.cpp:330-331 | the last role is bound to the last operand token |
| Translator.FieldWidthsTotal | MIPS_assembler.cpp:385-389 | for any number of fields, every field but the last has its `PLACE_HOLDER_LENGTHS` width and all the widths add up to exactly 32 |
| Translator.FieldStarts | MIPS_assembler.cpp:115 | the fields start at bits 0, 6, 11, 16, 21, 26 and 32 |
| Translator.FieldBitsAt | MIPS_assembler.cpp:352-391 | proof step (one unfolding): piece i of the line is field i's value written at its width |
| Translator.FieldsLength | MIPS_assembler.cpp:385-392 | after k fields the text is binary, its length is the sum of the first k widths, and after all fields it is 32 |
| Translator.FieldsShape | MIPS_assembler.cpp:352-395 | a line written field by field is 32 characters of `0`/`1` |
| Translator.FieldAt | MIPS_assembler.cpp:352-393 | field i occupies bits `start .. start + width` of the line and reads back as its value mod `2^width` |
| Translator.TranslateBranch | MIPS_assembler.cpp:374-377 | for a non-load/store entry with no `Offset` operand, translated at `PC = 4i` with the last token's label read as index i + d + 1, the `Offset` field sits at its bits and width and holds d |
| Translator.BranchField | MIPS_assembler.cpp:374-377 | in a line written field by field with `PC = 4i`, no `Offset` operand and the last token's label at index i + d + 1, an `Offset` field sits at its bits and width and holds d |
| Translator.OffsetField | MIPS_assembler.cpp:375-377 | with `PC = 4i` and the last token a label at index j, the `Offset` field is exactly j - i - 1 |
| Translator.OpenParen | MIPS_assembler.cpp:288-289 | the index of the first `(` of the operand |
| Translator.ReadAddress | MIPS_assembler.cpp:286-296 | the loop returns the immediate before the first `(` and the register between it and the last character |
| Translator.AddressOfText | MIPS_assembler.cpp:286-296 | `x(r)` reads back as offset x and register text r, for every integer x |
| Translator.AddressWithoutOffset | MIPS_assembler.cpp:290-291 | with nothing before `(`, the immediate is 0 |
| Translator.AddressLineShape | MIPS_assembler.cpp:340-348 | the load/store layout, opcode then base register then `rt` then a 16-bit immediate, is 32 binary characters |
| Translator.TranslateAddressCase | MIPS_assembler.cpp:340-348 | proof step (one unfolding): when the last role is `address`, the line is the load/store layout |
| Translator.TranslateFieldsCase | MIPS_assembler.cpp:351-395 | proof step (one unfolding): otherwise the line is the template fields in order |
| Translator.TranslateShape | MIPS_assembler.cpp:318-396 | every translated instruction is exactly 32 characters, each `0` or `1` |
| Driver.ScanStep | MIPS_assembler.cpp:224-231 | proof step (one unfolding): one more line adds at most its own label and raises the count only when it has two or more tokens |
| Driver.InstructionCountAppend | MIPS_assembler.cpp:230-231 | instruction lines are counted additively over consecutive parts of the text |
| Driver.ColonSplit | MIPS_assembler.cpp:225-226 | a token ending in `:` with the colon removed is `name` exactly when the token is `name + ":"` |
| Driver.LabelTableStep | MIPS_assembler.cpp:224-228 | a line defining a label sets it to the count of earlier instruction lines, and other labels keep their values |
| Driver.ReadLabelSpec | MIPS_assembler.cpp:266 | `read_label` over the pass-1 table is total: a label reads as the number of instructions before its last definition, and a name no line defines reads as 0 (the value `map::operator[]` inserts) |
| Driver.LabelTableSpec | MIPS_assembler.cpp:209-233 | a label is present exactly when some line defines it; its value is the number of lines with two or more tokens before its last definition |
| Driver.InstructionLineExists | MIPS_assembler.cpp:230-231 | every instruction index below the count belongs to some line with two or more tokens |
| Driver.InstructionLine | MIPS_assembler.cpp:230-231 | the line holding the k-th instruction |
| Driver.EncoderApplies | MIPS_assembler.cpp:418-422 | proof step (one unfolding): an instruction line is encoded by `translate_instruction` with the mnemonic offset from `StartOffset` |
| Driver.StepSkips | MIPS_assembler.cpp:403-410 | proof step (one unfolding): a line with fewer than two tokens changes neither `PC` nor the output |
| Driver.StepWrites | MIPS_assembler.cpp:412-422 | proof step (one unfolding): any other line raises `PC` by 4 and then appends its encoding at the new `PC` |
| Driver.ProcessStep | MIPS_assembler.cpp:412-422 | proof step (one unfolding): appending the translation at `PC + 4` is one pass-2 step |
| Driver.Pass2Counts | MIPS_assembler.cpp:426-430 | after pass 2 over some lines, `PC` has risen by 4 per instruction line, the output has one more line per instruction line, and earlier output is kept |
| Driver.Pass2Agreement | MIPS_assembler.cpp:409-412 | the instruction on line n is written at output index k, where k counts the instruction lines before it, with `PC` equal to its start plus `4(k + 1)` |
| Driver.Pass2FromStart | MIPS_assembler.cpp:409-412 | from `PC = -4`, the k-th instruction is encoded with `PC = 4k` |
| Driver.Pass2Translation | MIPS_assembler.cpp:401-430 | output line k is the translation of the k-th instruction line at `PC = 4k` |
| Driver.ProgramLength | MIPS_assembler.cpp:469-477 | the program has one output line per line of two or more tokens |
| Driver.ProgramAgreement | MIPS_assembler.cpp:469-477 | output line k is the k-th instruction line translated with the final tables and `PC = 4k`: the index pass 1 gives a label there |
| Driver.ProgramShape | MIPS_assembler.cpp:318-396 | every output line is 32 binary characters |
| Driver.ProgramBranchOffset | MIPS_assembler.cpp:374-377 | in the program's output, the line of a branch at instruction index i whose last operand names a label last defined at instruction index i + d + 1 has d in its `Offset` field, at that field's bits and width; for a forward branch this is the number of instructions strictly between the two |
| Driver.BranchSpan | MIPS_assembler.cpp:230-231 | between an instruction line n and a later line m lie exactly the instructions counted up to m less those up to and including n |
| Driver.Assembler.constructor | MIPS_assembler.cpp:312 | before `main`, the tables are empty, `PC` is -4 and nothing is written |
| Driver.Assembler.InitializeRegNameToInt | MIPS_assembler.cpp:432-435 | the loop adds exactly the register table and changes nothing else |
| Driver.Assembler.InitializeInstructions | MIPS_assembler.cpp:438-454 | the loop adds exactly the catalog `InstructionTable()` and changes nothing else |
| Driver.Assembler.ReadRow | MIPS_assembler.cpp:442-452 | splitting both rows of entry i and copying them gives the name and entry of row i |
| Driver.Assembler.NewEntry | MIPS_assembler.cpp:445-450 | the copy loops make the words after the mnemonic the roles and the template words the fields |
| Driver.Assembler.ScanLabels | MIPS_assembler.cpp:209-233 | the loop adds exactly `LabelTable(lines)` to the label map and changes nothing else |
| Driver.Assembler.StripTrailingCommas | MIPS_assembler.cpp:323-326 | the comma loop produces `StripCommas(tokens)` |
| Driver.Assembler.BindRoles | MIPS_assembler.cpp:329-331 | the binding loop produces the role map of `BindParams` |
| Driver.Assembler.ResolveField | MIPS_assembler.cpp:354-383 | one field resolves as `FieldValue`: `shamt` is decimal, `target` is a known label or else hex, `$` text is a register, other text is decimal, an unbound `Offset` uses the last token's label, an unbound `rs` is 0, anything else is a hex literal |
| Driver.Assembler.TranslateAddress | MIPS_assembler.cpp:340-348 | the four writes produce the load/store layout |
| Driver.Assembler.TranslateFields | MIPS_assembler.cpp:352-395 | the field loop with its decreasing remaining length produces `Fields` |
| Driver.Assembler.TranslateInstruction | MIPS_assembler.cpp:318-396 | the line written is `Translate` of the tokens under the current tables and `PC` |
| Driver.Assembler.ProcessLine | MIPS_assembler.cpp:401-424 | `PC` and the output move exactly as one `Pass2Step`, and the tables are unchanged |
| Driver.Assembler.Assemble | MIPS_assembler.cpp:426-430 | `PC` and the output move exactly as `Pass2Run` over the lines |
| Driver.AssembleLines | MIPS_assembler.cpp:469-477 | running the steps of `main` in order writes exactly `Program(lines)` |

## Left out

- File and stream I/O are left out, because the model works on values: `ifstream`/`ofstream`, the `peek`/`get`/`eof` loop of `get_tokens_in_line` (lines 192-206), and the `seekg` rewind. The input is a sequence of lines and the output a sequence of strings. The line ending `endl` is not part of an output string.
- The argument-count check and exit code of `main` (lines 460-463) are left out: they belong to the command line.
- C++ 32-bit `int` overflow is not modelled, because integers here are unbounded. This affects `read_hex` and `read_dec` on very long literals, and `PC` on very long programs.
- The heap allocation of `new instruction()` (line 445), which is never freed, is left out. The entry is a value.
- Driver.Assembler.TranslateInstruction: requires a catalogued mnemonic, a token for every operand role, and a `(` in an `address` operand (`WellFormedInstruction`). Without them the original indexes an empty vector, reads past the tokens, or leaves `rs` unset, all of which are undefined behaviour.
- Driver.Assembler.ProcessLine: requires such a well-formed instruction on every line of two or more tokens, for the same reason. `Encode` gives malformed lines the empty string only so that the function is total; no method reaches that case.
- `read_label` on an undefined label inserts it into `label_to_line_number` with value 0 (line 266). That insertion is left out: the lookup reads as 0 and the table is unchanged. In the original, the inserted label can later make a `target` operand with the same text resolve as label 0 rather than as hex (line 363).
- Characters are modelled as code points, not as the bytes of `std::string`. For all-ASCII text the tokens, labels and register names are the same. For non-ASCII text the lengths and the digit arithmetic of `read_hex` and `read_dec` (lines 240-251, 270-279) differ from the original. There `s.length()` counts bytes and `s[i] - '0'` works on a possibly signed `char`. For example, `read_dec` of `é` reads two bytes, while `DecValue` reads one character.
- The row `"mult rs rt "` (line 11) is stored without its trailing space. `Tokenizer.TrailingBlankIgnored` shows that the space yields no token, so the deserialised entry is the same.
