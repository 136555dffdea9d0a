/**
 * The exponential table generator (pulse_gen/lut_gen.py): 1024 samples of
 * exp(-x) for x = addr / 64 (UQ4.6, domain [0, 16)), each rounded with
 * floor(y * 2^15 + 0.5), clamped into UQ0.15 [0, 0x7FFF] so bit 15 is never
 * set, and written in one arm of a `unique case` inside an `en`-gated
 * always_comb block.
 *
 * The exponential itself is not modelled: `ideal` stands for what the script
 * computes, math.exp(-x), with its floating-point error folded in.
 * Everything after that sample (scaling, rounding, clamping) is evaluated
 * exactly.
 */
module ExpLut {
  import opened Rounding
  import opened SvText

  /** Table entries: every 10-bit address. */
  const N: nat := 1024
  /** 1 << 6: the UQ4.6 address has six fraction bits. */
  const ScaleIn: int := 64
  /** 1 << 15: UQ0.15 has fifteen fraction bits. */
  const ScaleOut: int := 0x8000
  const MaxUq015: int := 0x7FFF

  // ---------------------------------------------------------------------
  // Quantisation

  /** quantize_uq0_15: floor(y * 2^15 + 0.5), clamped into [0, MaxUq015]. */
  function QuantizeUq015(y: real): (r: int)
    ensures 0 <= r <= MaxUq015
    // in range: the nearest integer, ties upwards
    ensures -0.5 <= y * ScaleOut as real < MaxUq015 as real - 0.5 ==>
              NearestTiesUp(y * ScaleOut as real, r)
    // out of range: clamped to the nearest end, never wrapped
    ensures y * ScaleOut as real < -0.5 ==> r == 0
    ensures y * ScaleOut as real >= MaxUq015 as real - 0.5 ==> r == MaxUq015
  {
    var q := RoundHalfUp(y * ScaleOut as real);
    var q := if q < 0 then 0 else q;
    var q := if q > MaxUq015 then MaxUq015 else q;
    q
  }

  /** The top bit of the 16-bit output word w holding a table value is never
      set. */
  lemma QuantizeUq015TopBitClear(y: real, w: bv16)
    requires w as int == QuantizeUq015(y)
    ensures w & 0x8000 == 0
  {
  }

  /** A larger sample never yields a smaller table value. */
  lemma QuantizeUq015Monotone(y1: real, y2: real)
    requires y1 <= y2
    ensures QuantizeUq015(y1) <= QuantizeUq015(y2)
  {
    RoundHalfUpMonotone(y1 * ScaleOut as real, y2 * ScaleOut as real);
  }

  /** 1.0 is represented as 0x7FFF rather than 0x8000, and 0.0 as 0. */
  lemma QuantizeUq015Endpoints()
    ensures QuantizeUq015(1.0) == 0x7FFF
    ensures QuantizeUq015(0.0) == 0
  {
    RoundingFixesIntegers(0);
  }

  /** A negative sample clamps to 0. */
  lemma QuantizeUq015NegativeClamp(y: real)
    requires y < 0.0
    ensures QuantizeUq015(y) == 0
  {
    RoundingFixesIntegers(0);
    RoundHalfUpMonotone(y * ScaleOut as real, 0.0);
  }

  // ---------------------------------------------------------------------
  // Addresses

  /** Address addr is the UQ4.6 number addr / 64: its upper four bits are the
      integer part, its lower six bits sixty-fourths. */
  function ExpArgument(addr: nat): (x: real)
    ensures x == (addr / 64) as real + (addr % 64) as real / 64.0
  {
    addr as real / ScaleIn as real
  }

  /** The 10-bit addresses cover [0, 16) in increasing order, and address 64
      is 1.0. */
  lemma ExpArgumentRange(addr: nat, other: nat)
    requires addr < N && other < N
    ensures 0.0 <= ExpArgument(addr) < 16.0
    ensures addr < other ==> ExpArgument(addr) < ExpArgument(other)
    ensures ExpArgument(0) == 0.0 && ExpArgument(64) == 1.0
  {
  }

  // ---------------------------------------------------------------------
  // The table

  /** The table the script builds: one UQ0.15 value per address. */
  function IdealTable(ideal: real -> real): (vals: seq<int>)
    ensures |vals| == N
    ensures forall a :: 0 <= a < N ==> 0 <= vals[a] <= MaxUq015
  {
    var vals := seq(N, a requires 0 <= a < N => QuantizeUq015(ideal(ExpArgument(a))));
    assert forall a :: 0 <= a < N ==> vals[a] == QuantizeUq015(ideal(ExpArgument(a)));
    vals
  }

  /** The `vals` loop of main: entry addr is the quantised ideal value at
      x = addr / 64, appended in increasing address order. */
  method BuildTable(ideal: real -> real) returns (vals: seq<int>)
    ensures |vals| == N
    ensures forall a :: 0 <= a < N ==> vals[a] == QuantizeUq015(ideal(ExpArgument(a)))
  {
    vals := [];
    for addr := 0 to N
      invariant |vals| == addr
      invariant forall a :: 0 <= a < addr ==> vals[a] == QuantizeUq015(ideal(ExpArgument(a)))
    {
      var x := ExpArgument(addr);
      var y := ideal(x);
      vals := vals + [QuantizeUq015(y)];
    }
  }

  // ---------------------------------------------------------------------
  // The emitted module

  const Lead: string := "                10'd"
  const Mid: string := ": y = 16'h"

  /** Comment block, port list and the en gate, up to `unique case (x)`. */
  const Header: seq<string> := [
    "// -----------------------------------------------------------------------------",
    "// Auto-generated exp(-x) LUT: 1024 entries",
    "//",
    "// Address encoding: x is Q4.6 over [0,16): x_real = x / 64",
    "// Output encoding : y is UQ0.15, y = round(exp(-x_real) * 2^15)",
    "// Note: 1.0 is represented as 0x7FFF (not 0x8000) to keep MSB=0.",
    "// -----------------------------------------------------------------------------",
    "",
    "module exp_lut_1024 (",
    "    input  logic        en,",
    "    input  logic [9:0]  x,",
    "    output logic [15:0] y",
    ");",
    "    always_comb begin",
    "        if (!en) begin",
    "            y = 16'd0;",
    "        end else begin",
    "            unique case (x)"
  ]

  /** The default arm and the closing lines. */
  const Footer: seq<string> := [
    "                default: y = 16'd0;",
    "            endcase",
    "        end",
    "    end",
    "endmodule",
    ""
  ]

  /** None of the fixed lines reads as a case arm. */
  lemma FixedLinesAreNotArms()
    ensures forall i :: 0 <= i < |Header| ==> ParseArm(Header[i], Lead, Mid).None?
    ensures forall i :: 0 <= i < |Footer| ==> ParseArm(Footer[i], Lead, Mid).None?
  {
  }

  /** The line emission of main: the header, one arm per entry of vals in
      address order, then the footer. */
  method EmitModule(vals: seq<int>) returns (lines: seq<string>)
    ensures lines == Header + ArmLines(Lead, Mid, vals) + Footer
    ensures |lines| == |Header| + |vals| + |Footer|
    // y is driven to zero while en is low; the case runs only in the else branch
    ensures lines[14] == "        if (!en) begin" && lines[15] == "            y = 16'd0;"
    ensures lines[16] == "        end else begin" && lines[17] == "            unique case (x)"
    ensures lines[|Header| + |vals|] == "                default: y = 16'd0;"
  {
    lines := Header;
    for addr := 0 to |vals|
      invariant lines == Header + ArmLines(Lead, Mid, vals[..addr])
    {
      ArmLinesSnoc(Lead, Mid, vals, addr);
      lines := lines + [CaseLine(Lead, Mid, addr, vals[addr])];
    }
    assert vals[..|vals|] == vals;
    lines := lines + Footer;
  }

  /** main without its I/O: build the table, emit the module. In the emitted
      text, the arm for each address holds exactly four upper-case hex digits
      that read back as the quantised sample, and the case selects it. */
  method GenerateModule(ideal: real -> real) returns (lines: seq<string>)
    ensures lines == Header + ArmLines(Lead, Mid, IdealTable(ideal)) + Footer
    ensures |lines| == |Header| + N + |Footer|
    ensures forall a :: 0 <= a < N ==>
              ParseArm(lines[|Header| + a], Lead, Mid) == Some((a, QuantizeUq015(ideal(ExpArgument(a)))))
    ensures forall x :: 0 <= x < N ==>
              Select(lines, Lead, Mid, x) == Some(QuantizeUq015(ideal(ExpArgument(x))))
    // y is driven to zero while en is low; the case runs only in the else branch
    ensures lines[14] == "        if (!en) begin" && lines[15] == "            y = 16'd0;"
    ensures lines[16] == "        end else begin" && lines[17] == "            unique case (x)"
    ensures lines[|Header| + N] == "                default: y = 16'd0;"
  {
    var vals := BuildTable(ideal);
    assert vals == IdealTable(ideal);
    lines := EmitModule(vals);
    EmittedArmsReadBack(Header, Footer, Lead, Mid, vals);
    FixedLinesAreNotArms();
    forall x | 0 <= x < N
      ensures Select(lines, Lead, Mid, x) == Some(vals[x])
    {
      CaseSelectsTable(Header, Footer, Lead, Mid, vals, x);
    }
  }
}
