/**
 * The cosine table generator (pulse_gen/cos_lut_gen_2048.py): 2048 samples of
 * cos(2*pi*t) over one turn, each rounded half-to-even to SQ1.15, saturated
 * into the signed 16-bit range and written as a two's-complement pattern in
 * one arm of a `unique case` inside an `en`-gated always_comb block.
 *
 * The cosine itself is not modelled: `ideal` stands for what the script
 * computes for a phase of t turns, math.cos(2.0 * math.pi * t), with its
 * rounded argument and its floating-point error folded in. Everything after
 * that sample (scaling, rounding, saturation, masking) is evaluated exactly.
 */
module CosLut {
  import opened Rounding
  import opened SvText

  /** Table entries, one per 1/2048 of a turn. */
  const N: nat := 2048
  /** 1 << 15: SQ1.15 has fifteen fraction bits. */
  const ScaleOut: int := 0x8000
  const MaxSq115: int := 0x7FFF
  const MinSq115: int := -0x8000

  // ---------------------------------------------------------------------
  // Quantisation

  /** q & 0xFFFF: the low 16 bits of q in two's complement, as a pattern
      0 .. 0xFFFF (Python's & on a negative int behaves as infinite-width
      two's complement). */
  function Mask16(q: int): (p: int)
    ensures 0 <= p < 0x10000
    ensures (q - p) % 0x10000 == 0
  {
    q % 0x10000
  }

  /** The signed value a `logic signed [15:0]` holding pattern p denotes. */
  function Decode16(p: int): int {
    if p >= 0x8000 then p - 0x10000 else p
  }

  /** quantize_sq1_15: round y * 2^15 half-to-even, saturate into
      [MinSq115, MaxSq115], return the 16-bit two's-complement pattern. */
  function QuantizeSq115(y: real): (r: int)
    ensures 0 <= r <= 0xFFFF
    ensures MinSq115 <= Decode16(r) <= MaxSq115
    // in range: the pattern holds the nearest integer, ties to even
    ensures MinSq115 as real <= y * ScaleOut as real <= MaxSq115 as real ==>
              NearestTiesEven(y * ScaleOut as real, Decode16(r))
    // out of range: saturation to the nearest extreme, never wrap-around
    ensures y * ScaleOut as real >= MaxSq115 as real ==> r == 0x7FFF
    ensures y * ScaleOut as real <= MinSq115 as real ==> r == 0x8000
  {
    Mask16(Saturated(RoundHalfEven(y * ScaleOut as real)))
  }

  /** The two guarded reassignments of q: clamp into the SQ1.15 integer range;
      a value already in range is kept. */
  function Saturated(q: int): (r: int)
    ensures MinSq115 <= r <= MaxSq115
    ensures MinSq115 <= q <= MaxSq115 ==> r == q
    ensures q > MaxSq115 ==> r == MaxSq115
    ensures q < MinSq115 ==> r == MinSq115
  {
    var q := if q > MaxSq115 then MaxSq115 else q;
    if q < MinSq115 then MinSq115 else q
  }

  /** Reading the pattern back as two's complement gives the saturated
      integer, so an in-range rounded value passes through unchanged. */
  lemma TwosComplementRoundTrip(q: int)
    requires MinSq115 <= q <= MaxSq115
    ensures Decode16(Mask16(q)) == q
  {
  }

  /** Every 16-bit pattern is the mask of the value it decodes to. */
  lemma PatternRoundTrip(p: int)
    requires 0 <= p < 0x10000
    ensures MinSq115 <= Decode16(p) <= MaxSq115
    ensures Mask16(Decode16(p)) == p
  {
  }

  /** The decoded quantiser is the saturated half-to-even rounding of y * 2^15. */
  lemma QuantizeSq115Decoded(y: real)
    ensures Decode16(QuantizeSq115(y))
            == Saturated(RoundHalfEven(y * ScaleOut as real))
  {
    TwosComplementRoundTrip(Saturated(RoundHalfEven(y * ScaleOut as real)));
  }

  /** A larger sample never yields a smaller signed table value. */
  lemma QuantizeSq115Monotone(y1: real, y2: real)
    requires y1 <= y2
    ensures Decode16(QuantizeSq115(y1)) <= Decode16(QuantizeSq115(y2))
  {
    RoundHalfEvenMonotone(y1 * ScaleOut as real, y2 * ScaleOut as real);
    QuantizeSq115Decoded(y1);
    QuantizeSq115Decoded(y2);
  }

  /** Quantisation is odd wherever no saturation is involved: -y encodes the
      negation of what y encodes. */
  lemma QuantizeSq115Symmetric(y: real)
    requires -MaxSq115 as real <= y * ScaleOut as real <= MaxSq115 as real
    ensures Decode16(QuantizeSq115(-y)) == -Decode16(QuantizeSq115(y))
  {
    RoundHalfEvenSymmetric(y * ScaleOut as real);
    assert -y * ScaleOut as real == -(y * ScaleOut as real);
    QuantizeSq115Decoded(y);
    QuantizeSq115Decoded(-y);
  }

  /** +1.0 is saturated to 0x7FFF, -1.0 is 0x8000, 0.0 is 0x0000. */
  lemma QuantizeSq115Endpoints()
    ensures QuantizeSq115(1.0) == 0x7FFF
    ensures QuantizeSq115(-1.0) == 0x8000
    ensures QuantizeSq115(0.0) == 0
  {
    RoundingFixesIntegers(0);
  }

  // ---------------------------------------------------------------------
  // Addresses

  /** Address addr denotes the phase addr / 2048 turns. */
  function PhaseTurns(addr: nat): (t: real)
    ensures 0.0 <= t
    ensures addr < N ==> t < 1.0
  {
    addr as real / N as real
  }

  /** Every 11-bit address lies in one turn, [0, 1), distinct addresses give
      distinct phases, and the quarter points are where cos is 1, 0, -1, 0. */
  lemma PhaseTurnsRange(addr: nat, other: nat)
    requires addr < N && other < N
    ensures 0.0 <= PhaseTurns(addr) < 1.0
    ensures addr < other ==> PhaseTurns(addr) < PhaseTurns(other)
    ensures PhaseTurns(0) == 0.0 && PhaseTurns(512) == 0.25
    ensures PhaseTurns(1024) == 0.5 && PhaseTurns(1536) == 0.75
  {
  }

  // ---------------------------------------------------------------------
  // The table

  /** The table the script builds: one 16-bit pattern per address. */
  function IdealTable(ideal: real -> real): (vals: seq<int>)
    ensures |vals| == N
    ensures forall a :: 0 <= a < N ==> 0 <= vals[a] <= 0xFFFF
  {
    var vals := seq(N, a requires 0 <= a < N => QuantizeSq115(ideal(PhaseTurns(a))));
    assert forall a :: 0 <= a < N ==> vals[a] == QuantizeSq115(ideal(PhaseTurns(a)));
    vals
  }

  /** The `vals` loop of main: entry addr is the quantised ideal value at
      phase addr / 2048 turns, appended in increasing address order. */
  method BuildTable(ideal: real -> real) returns (vals: seq<int>)
    ensures |vals| == N
    ensures forall a :: 0 <= a < N ==> vals[a] == QuantizeSq115(ideal(PhaseTurns(a)))
  {
    vals := [];
    for addr := 0 to N
      invariant |vals| == addr
      invariant forall a :: 0 <= a < addr ==> vals[a] == QuantizeSq115(ideal(PhaseTurns(a)))
    {
      var phaseTurns := PhaseTurns(addr);
      var y := ideal(phaseTurns);
      vals := vals + [QuantizeSq115(y)];
    }
  }

  // ---------------------------------------------------------------------
  // The emitted module

  const Lead: string := "                11'd"
  const Mid: string := ": y = 16'sh"

  /** Comment block, port list and the en gate, up to `unique case (x)`. */
  const Header: seq<string> := [
    "// -----------------------------------------------------------------------------",
    "// Auto-generated cos(2*pi*x) LUT: 2048 entries",
    "//",
    "// Address encoding: x_real = x / 2048.0 turns  (x in [0..2047])",
    "// Output encoding : y is SQ1.15, y = round(cos(2*pi*x_real) * 2^15)",
    "// Note: +1.0 is saturated to 0x7FFF (32767), -1.0 is 0x8000 (-32768)",
    "// -----------------------------------------------------------------------------",
    "",
    "module cos_lut_2048 (",
    "    input  logic              en,",
    "    input  logic [10:0]       x,",
    "    output logic signed [15:0] y",
    ");",
    "    timeunit 1ns;",
    "    timeprecision 1ps;",
    "",
    "    always_comb begin",
    "        if (!en) begin",
    "            y = 16'sd0;",
    "        end else begin",
    "            unique case (x)"
  ]

  /** The default arm and the closing lines. */
  const Footer: seq<string> := [
    "                default: y = 16'sd0;",
    "            endcase",
    "        end",
    "    end",
    "endmodule",
    ""
  ]

  /** None of the fixed lines reads as a case arm. */
  lemma FixedLinesAreNotArms()
    ensures forall i :: 0 <= i < |Header| ==> ParseArm(Header[i], Lead, Mid).None?
    ensures forall i :: 0 <= i < |Footer| ==> ParseArm(Footer[i], Lead, Mid).None?
  {
  }

  /** The line emission of main: the header, one arm per entry of vals in
      address order, then the footer. */
  method EmitModule(vals: seq<int>) returns (lines: seq<string>)
    ensures lines == Header + ArmLines(Lead, Mid, vals) + Footer
    ensures |lines| == |Header| + |vals| + |Footer|
    // y is driven to zero while en is low; the case runs only in the else branch
    ensures lines[17] == "        if (!en) begin" && lines[18] == "            y = 16'sd0;"
    ensures lines[19] == "        end else begin" && lines[20] == "            unique case (x)"
    ensures lines[|Header| + |vals|] == "                default: y = 16'sd0;"
  {
    lines := Header;
    for addr := 0 to |vals|
      invariant lines == Header + ArmLines(Lead, Mid, vals[..addr])
    {
      ArmLinesSnoc(Lead, Mid, vals, addr);
      lines := lines + [CaseLine(Lead, Mid, addr, vals[addr])];
    }
    assert vals[..|vals|] == vals;
    lines := lines + Footer;
  }

  /** main without its I/O: build the table, emit the module. In the emitted
      text, the arm for each address holds exactly four upper-case hex digits
      that read back as the quantised sample, and the case selects it. */
  method GenerateModule(ideal: real -> real) returns (lines: seq<string>)
    ensures lines == Header + ArmLines(Lead, Mid, IdealTable(ideal)) + Footer
    ensures |lines| == |Header| + N + |Footer|
    ensures forall a :: 0 <= a < N ==>
              ParseArm(lines[|Header| + a], Lead, Mid) == Some((a, QuantizeSq115(ideal(PhaseTurns(a)))))
    ensures forall x :: 0 <= x < N ==>
              Select(lines, Lead, Mid, x) == Some(QuantizeSq115(ideal(PhaseTurns(x))))
    // y is driven to zero while en is low; the case runs only in the else branch
    ensures lines[17] == "        if (!en) begin" && lines[18] == "            y = 16'sd0;"
    ensures lines[19] == "        end else begin" && lines[20] == "            unique case (x)"
    ensures lines[|Header| + N] == "                default: y = 16'sd0;"
  {
    var vals := BuildTable(ideal);
    assert vals == IdealTable(ideal);
    lines := EmitModule(vals);
    EmittedArmsReadBack(Header, Footer, Lead, Mid, vals);
    FixedLinesAreNotArms();
    forall x | 0 <= x < N
      ensures Select(lines, Lead, Mid, x) == Some(vals[x])
    {
      CaseSelectsTable(Header, Footer, Lead, Mid, vals, x);
    }
  }
}
