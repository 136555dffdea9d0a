# Verified model of the pulse generator's lookup-table generators

The pulse generator reads two read-only lookup tables, and two Python scripts
generate them as combinational SystemVerilog modules:

- `cos_lut_gen_2048.py` builds the cosine table. It has 2048 entries, one per
  1/2048 of a turn. Each entry is cos(2πt) rounded half-to-even to SQ1.15,
  saturated into [-32768, 32767] and emitted as a 16-bit two's-complement pattern.
- `lut_gen.py` builds the exponential table. It has 1024 entries. Address a is
  the UQ4.6 number a/64, in [0, 16). Each entry is exp(-a/64) rounded with
  floor(y·2^15 + 0.5) and clamped into UQ0.15 [0, 0x7FFF], so bit 15 is never set.

Both scripts write a `unique case` with one arm per address,
`<w>'d<addr>: y = 16'[s]h<HHHH>;`, then a default arm that gives 0. The case
sits in the else branch of an `if (!en)` that drives y to 0.

The model has four modules:

- `Rounding` (rounding.dfy) holds Python's `round` (half-to-even) and
  `floor(x + 0.5)` over exact reals. Each comes with a predicate that describes
  the integer it must return, and a lemma that this predicate singles out one
  integer.
- `SvText` (sv_text.dfy) holds decimal formatting and Python's `format(v, "04X")`.
  It also holds the arm line, a parser that reads an arm back, and `Select`.
  `Select` is the choice the `unique case` makes among the emitted lines.
- `CosLut` (cos_lut.dfy) models the cosine script: its quantiser, its address
  mapping, the table loop and the line emission.
- `ExpLut` (exp_lut.dfy) models the exponential script in the same way.

The ideal functions are passed in as `ideal: real -> real`. For the cosine script
it stands for what the script computes at a phase of t turns,
`math.cos(2.0 * math.pi * t)`. For the exponential script it stands for
`math.exp(-x)` as the script computes it. Everything after that sample is
evaluated exactly. The table loops (`BuildTable`) and the line emission
(`EmitModule`) are methods with `for` loops, like the appends in each script's
`main`. `GenerateModule` is `main` without its command line and file I/O. It
proves that for every address, the emitted arm reads back as that address and
its quantised sample, and that the case selects that sample. It also states
the whole text: the header, the arms of `IdealTable` in address order, and the
footer.

## Model

| member | source | states |
|---|---|---|
| Rounding.RoundHalfEven | pulse_gen/cos_lut_gen_2048.py:35 | the result is an integer nearest x, and when x is exactly half-way it is the even neighbour |
| Rounding.RoundHalfUp | pulse_gen/lut_gen.py:28 | floor(x + 0.5) is an integer nearest x, and exact halves go up |
| Rounding.RoundHalfEvenUnique | pulse_gen/cos_lut_gen_2048.py:35 | the nearest-with-ties-to-even description determines the rounded integer uniquely |
| Rounding.RoundHalfUpUnique | pulse_gen/lut_gen.py:28 | the nearest-with-ties-up description determines floor(x + 0.5) uniquely |
| Rounding.RoundHalfEvenMonotone | pulse_gen/cos_lut_gen_2048.py:35 | round never reverses the order of two values |
| Rounding.RoundHalfUpMonotone | pulse_gen/lut_gen.py:28 | floor(x + 0.5) never reverses the order of two values |
| Rounding.RoundHalfEvenSymmetric | pulse_gen/cos_lut_gen_2048.py:33-35 | round(-x) == -round(x): the rounding treats negative values symmetrically |
| Rounding.RoundingFixesIntegers | pulse_gen/cos_lut_gen_2048.py:35 | both roundings leave an integer unchanged |
| SvText.DecDigits | pulse_gen/cos_lut_gen_2048.py:82 | the decimal text of an address is non-empty and all decimal digits (DecRoundTrip: it reads back as the address) |
| SvText.DecRoundTrip | pulse_gen/cos_lut_gen_2048.py:82 | the decimal address written into an arm reads back as the address |
| SvText.HexRoundTrip | pulse_gen/cos_lut_gen_2048.py:82 | the hexadecimal digits of a value read back as the value |
| SvText.HexDigitsLength | pulse_gen/cos_lut_gen_2048.py:82 | a number below 16^k has at most k hexadecimal digits |
| SvText.LeadingZeros | pulse_gen/cos_lut_gen_2048.py:82 | zero padding does not change the value the digits denote |
| SvText.Hex04 | pulse_gen/cos_lut_gen_2048.py:82 | `{v:04X}` is at least four characters, starts with '-' exactly when v is negative, and is all upper-case hex digits otherwise (Hex04Exact: exactly four digits that parse back for a 16-bit v) |
| SvText.Hex04Exact | pulse_gen/cos_lut_gen_2048.py:82 | `{v:04X}` of a 16-bit pattern is exactly four upper-case hex digits and parses back to v |
| SvText.CaseLine | pulse_gen/lut_gen.py:69 | an arm line begins with the width prefix and ends with ';', and is long enough for the address, the value and the separators (ArmRoundTrip: it parses back) |
| SvText.ArmLines | pulse_gen/cos_lut_gen_2048.py:81-82 | one arm line per table entry |
| SvText.ArmLinesSnoc | pulse_gen/cos_lut_gen_2048.py:81-82 | the arms of one more entry are the previous arms followed by the new entry's arm, so the enumerate loop appends in address order |
| SvText.ArmRoundTrip | pulse_gen/lut_gen.py:69 | an emitted arm line parses back to its address and its 16-bit value |
| SvText.SelectArmsFrom | pulse_gen/lut_gen.py:68-69 | over the arms from address k on, address x selects its own entry when k <= x < N and nothing otherwise |
| SvText.CaseSelectsTable | pulse_gen/cos_lut_gen_2048.py:79-85 | header, arms in address order and footer make a case that selects vals[x] for every table address and the default for every other x |
| SvText.EmittedArmsReadBack | pulse_gen/lut_gen.py:66-71 | in header + arms + footer, the line at offset a after the header parses back to address a and vals[a], for every entry of a 16-bit table |
| CosLut.QuantizeSq115 | pulse_gen/cos_lut_gen_2048.py:30-43 | the result is a 16-bit pattern 0..0xFFFF. Decoded, it is in [-32768, 32767]. In range it is the nearest integer to y·2^15 with ties to even. At or above 32767 it is 0x7FFF, and at or below -32768 it is 0x8000, never wrapped |
| CosLut.Saturated | pulse_gen/cos_lut_gen_2048.py:37-40 | the result is in [-32768, 32767], an in-range q is unchanged, above the range it is 32767 and below it -32768 |
| CosLut.Mask16 | pulse_gen/cos_lut_gen_2048.py:43 | q & 0xFFFF is the pattern in 0..0xFFFF congruent to q modulo 2^16 |
| CosLut.TwosComplementRoundTrip | pulse_gen/cos_lut_gen_2048.py:42-43 | decoding the masked pattern as two's complement gives back every integer in [-32768, 32767] |
| CosLut.PatternRoundTrip | pulse_gen/cos_lut_gen_2048.py:42-43 | every 16-bit pattern decodes into [-32768, 32767] and masks back to itself |
| CosLut.QuantizeSq115Decoded | pulse_gen/cos_lut_gen_2048.py:35-43 | the decoded quantiser equals the saturated half-to-even rounding of y·2^15 |
| CosLut.QuantizeSq115Monotone | pulse_gen/cos_lut_gen_2048.py:35-40 | a larger sample never gives a smaller signed table value |
| CosLut.QuantizeSq115Symmetric | pulse_gen/cos_lut_gen_2048.py:33-35 | away from saturation, -y encodes the negation of what y encodes |
| CosLut.QuantizeSq115Endpoints | pulse_gen/cos_lut_gen_2048.py:11-12 | +1.0 is saturated to 0x7FFF, -1.0 is 0x8000, 0.0 is 0 |
| CosLut.PhaseTurns | pulse_gen/cos_lut_gen_2048.py:54 | addr / 2048.0 is non-negative and below one turn for every table address (PhaseTurnsRange: order and quarter points) |
| CosLut.PhaseTurnsRange | pulse_gen/cos_lut_gen_2048.py:6-7 | each 11-bit address is a phase in [0, 1) turn, in increasing order, with the quarter points at 512, 1024 and 1536 |
| CosLut.IdealTable | pulse_gen/cos_lut_gen_2048.py:52-56 | the table has 2048 entries, each a 16-bit pattern 0..0xFFFF |
| CosLut.BuildTable | pulse_gen/cos_lut_gen_2048.py:52-56 | exactly 2048 entries, entry a being the quantised ideal value at a/2048 turns |
| CosLut.FixedLinesAreNotArms | pulse_gen/cos_lut_gen_2048.py:59-89 | no header or footer line reads as a case arm |
| CosLut.EmitModule | pulse_gen/cos_lut_gen_2048.py:58-89 | the output is the header, one `11'd<addr>: y = 16'sh<HHHH>;` arm per entry in address order, and the footer. y is 0 while en is low, the case is in the else branch, and the default arm follows the last address |
| CosLut.GenerateModule | pulse_gen/cos_lut_gen_2048.py:46-91 | the text is exactly the header, the arms of the 2048-entry table in address order, and the footer: 2075 lines. For each address 0..2047 the arm parses back to that address and its quantised sample, and the case selects that sample. y is 0 while en is low, the case is in the else branch, and the default arm follows address 2047 |
| ExpLut.QuantizeUq015 | pulse_gen/lut_gen.py:27-33 | the result is in [0, 0x7FFF]. In range it is the nearest integer to y·2^15 with ties upward. Below -0.5 it clamps to 0, and from 32766.5 up it clamps to 0x7FFF |
| ExpLut.QuantizeUq015TopBitClear | pulse_gen/lut_gen.py:9 | bit 15 of the 16-bit word holding any table value is 0 |
| ExpLut.QuantizeUq015Monotone | pulse_gen/lut_gen.py:28-32 | a larger sample never gives a smaller table value |
| ExpLut.QuantizeUq015Endpoints | pulse_gen/lut_gen.py:9 | 1.0 is 0x7FFF, not 0x8000, and 0.0 is 0 |
| ExpLut.QuantizeUq015NegativeClamp | pulse_gen/lut_gen.py:29-30 | every negative sample clamps to 0 |
| ExpLut.ExpArgument | pulse_gen/lut_gen.py:44 | address a is the UQ4.6 number whose integer part is a/64 and whose fraction is (a mod 64)/64 |
| ExpLut.ExpArgumentRange | pulse_gen/lut_gen.py:6 | the 10-bit addresses cover [0, 16) in increasing order, and address 64 is 1.0 |
| ExpLut.IdealTable | pulse_gen/lut_gen.py:42-46 | the table has 1024 entries, each in [0, 0x7FFF] |
| ExpLut.BuildTable | pulse_gen/lut_gen.py:42-46 | exactly 1024 entries, entry a being the quantised ideal value at a/64 |
| ExpLut.FixedLinesAreNotArms | pulse_gen/lut_gen.py:49-76 | no header or footer line reads as a case arm |
| ExpLut.EmitModule | pulse_gen/lut_gen.py:48-76 | the output is the header, one `10'd<addr>: y = 16'h<HHHH>;` arm per entry in address order, and the footer. y is 0 while en is low, the case is in the else branch, and the default arm follows the last address |
| ExpLut.GenerateModule | pulse_gen/lut_gen.py:36-78 | the text is exactly the header, the arms of the 1024-entry table in address order, and the footer: 1048 lines. For each address 0..1023 the arm parses back to that address and its quantised sample, and the case selects that sample. y is 0 while en is low, the case is in the else branch, and the default arm follows address 1023 |

## Left out

- `math.cos` and `math.exp` are not modelled. They are floating-point transcendental functions, so each generator takes them as a parameter `ideal: real -> real`.
- Floating-point representation error before the sample is not modelled separately. In the cosine script, `2.0 * math.pi * phase_turns` is rounded and `math.pi` is not π. That error and the evaluation error of `math.cos` and `math.exp` are folded into `ideal`. After the sample, scaling by 2^15 is exact in binary floating point, and so is dividing an address by 2048 or 64.
- ExpLut.QuantizeUq015: works out floor(y·2^15 + 0.5) on exact reals. The script adds 0.5 in double precision, and that addition can round when y·2^15 is within one ulp of a half.
- `argparse`, `"\n".join(lines)`, `Path.write_text` and the sanity prints are command-line and file I/O. The model stops at the sequence of lines.
- The header and footer comment lines are kept verbatim as constants. Nothing is proved about them beyond their count, their position and that none reads as an arm.
- CosLut.EmitModule, ExpLut.EmitModule, CosLut.GenerateModule and ExpLut.GenerateModule: the `en` gate is stated as the lines the module contains at fixed positions. SystemVerilog `if`/`unique case` semantics are not evaluated. `Select` models only which arm matches an address.
- `plot_pulses.py` is JSON reading and plotting. It has no logic to verify.
- The SystemVerilog pulse pipeline and session controller that read these tables are not part of this model.
