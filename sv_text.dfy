/**
 * The text the generators emit: decimal addresses, upper-case hexadecimal
 * values as Python's format(v, "04X") writes them, the `unique case` arm
 * lines built from the two, a parser that reads an arm back, and the case
 * selection a SystemVerilog simulator performs over the emitted arms.
 */
module SvText {

  datatype Option<T> = None | Some(value: T)

  predicate IsDecDigit(c: char) { '0' <= c <= '9' }

  /** Only upper-case letters: the generators format with "X", not "x". */
  predicate IsHexDigit(c: char) { '0' <= c <= '9' || 'A' <= c <= 'F' }

  predicate AllDec(s: string) { forall i :: 0 <= i < |s| ==> IsDecDigit(s[i]) }

  predicate AllHex(s: string) { forall i :: 0 <= i < |s| ==> IsHexDigit(s[i]) }

  function DecChar(d: nat): (c: char)
    requires d < 10
    ensures IsDecDigit(c)
  {
    ('0' as int + d) as char
  }

  function HexChar(d: nat): (c: char)
    requires d < 16
    ensures IsHexDigit(c)
  {
    if d < 10 then ('0' as int + d) as char else ('A' as int + d - 10) as char
  }

  /** Weight of one decimal or upper-case hexadecimal digit character:
      DigitValue(DecChar(d)) == d and DigitValue(HexChar(d)) == d. */
  function DigitValue(c: char): nat {
    if '0' <= c <= '9' then c as int - '0' as int
    else if 'A' <= c <= 'F' then c as int - 'A' as int + 10
    else 0
  }

  // ---------------------------------------------------------------------
  // Decimal: Python's str(n) for a non-negative integer n

  function DecDigits(n: nat): (s: string)
    ensures |s| >= 1 && AllDec(s)
    decreases n
  {
    if n < 10 then [DecChar(n)] else DecDigits(n / 10) + [DecChar(n % 10)]
  }

  /** The number a string of decimal digits denotes (most significant first). */
  function DecValue(s: string): nat {
    if s == [] then 0 else 10 * DecValue(s[..|s| - 1]) + DigitValue(s[|s| - 1])
  }

  lemma {:induction false} DecRoundTrip(n: nat)
    ensures DecValue(DecDigits(n)) == n
    decreases n
  {
    var s := DecDigits(n);
    if n >= 10 {
      DecRoundTrip(n / 10);
      assert s[..|s| - 1] == DecDigits(n / 10);
    }
  }

  // ---------------------------------------------------------------------
  // Hexadecimal: Python's format(v, "04X")

  function HexDigits(n: nat): (s: string)
    ensures |s| >= 1 && AllHex(s)
    decreases n
  {
    if n < 16 then [HexChar(n)] else HexDigits(n / 16) + [HexChar(n % 16)]
  }

  function Zeros(k: nat): (z: string)
    ensures |z| == k
  {
    seq(k, _ => '0')
  }

  /** Left-pad s with '0' up to `width` characters; longer strings are kept whole. */
  function ZeroPad(s: string, width: nat): (p: string)
    ensures |p| == if |s| >= width then |s| else width
  {
    if |s| >= width then s else Zeros(width - |s|) + s
  }

  /** format(v, "04X"): upper-case digits, zero padding to a total width of
      four, the padding going after a minus sign when v is negative. */
  function Hex04(v: int): (s: string)
    ensures |s| >= 4
    ensures v < 0 <==> s[0] == '-'
    ensures v >= 0 ==> AllHex(s)
  {
    if v < 0 then "-" + ZeroPad(HexDigits(-v), 3) else ZeroPad(HexDigits(v), 4)
  }

  /** The number a string of hexadecimal digits denotes (most significant first). */
  function HexValue(s: string): nat {
    if s == [] then 0 else 16 * HexValue(s[..|s| - 1]) + DigitValue(s[|s| - 1])
  }

  lemma {:induction false} HexRoundTrip(n: nat)
    ensures HexValue(HexDigits(n)) == n
    decreases n
  {
    var s := HexDigits(n);
    if n >= 16 {
      HexRoundTrip(n / 16);
      assert s[..|s| - 1] == HexDigits(n / 16);
    }
  }

  /** A number below 16^k needs at most k hexadecimal digits. */
  lemma {:induction false} HexDigitsLength(n: nat, k: nat)
    requires 1 <= k && n < Pow16(k)
    ensures |HexDigits(n)| <= k
    decreases k
  {
    if n >= 16 {
      assert n / 16 < Pow16(k - 1);
      HexDigitsLength(n / 16, k - 1);
    }
  }

  /** Leading zeros do not change the value of a digit string. */
  lemma {:induction false} LeadingZeros(k: nat, s: string)
    ensures HexValue(Zeros(k) + s) == HexValue(s)
    decreases |s|
  {
    if s == [] {
      ZerosValue(k);
      assert Zeros(k) + s == Zeros(k);
    } else {
      var t := Zeros(k) + s;
      assert t[..|t| - 1] == Zeros(k) + s[..|s| - 1];
      LeadingZeros(k, s[..|s| - 1]);
    }
  }

  lemma {:induction false} ZerosValue(k: nat)
    ensures HexValue(Zeros(k)) == 0
  {
    if k > 0 {
      assert Zeros(k)[..k - 1] == Zeros(k - 1);
      ZerosValue(k - 1);
    }
  }

  lemma PaddedDigits(s: string, width: nat)
    requires AllHex(s)
    ensures AllHex(ZeroPad(s, width))
  {
    if |s| < width {
      var p := ZeroPad(s, width);
      var z := width - |s|;
      forall i | 0 <= i < |p| ensures IsHexDigit(p[i]) {
        if i < z {
          assert p[i] == Zeros(z)[i];
        } else {
          assert p[i] == s[i - z];
        }
      }
    }
  }

  /** Every 16-bit pattern is written as exactly four upper-case hexadecimal
      digits, which read back as the pattern. */
  lemma Hex04Exact(v: int)
    requires 0 <= v < 0x10000
    ensures |Hex04(v)| == 4 && AllHex(Hex04(v))
    ensures HexValue(Hex04(v)) == v
  {
    var s := HexDigits(v);
    assert Pow16(4) == 0x10000;
    HexDigitsLength(v, 4);
    HexRoundTrip(v);
    if |s| < 4 {
      LeadingZeros(4 - |s|, s);
      PaddedDigits(s, 4);
    }
  }

  // ---------------------------------------------------------------------
  // Case arms

  /** One arm of the emitted `unique case`: lead + address + mid + value + ";".
      The lead carries the indentation and the address literal's width
      ("11'd", "10'd"), mid the assignment up to the value literal's radix. */
  function CaseLine(lead: string, mid: string, addr: nat, v: int): (line: string)
    ensures |line| >= |lead| + 1 + |mid| + 4 + 1
    ensures line[..|lead|] == lead && line[|line| - 1] == ';'
  {
    lead + DecDigits(addr) + mid + Hex04(v) + ";"
  }

  /** The arms for every address of a table, in address order. */
  function ArmLines(lead: string, mid: string, vals: seq<int>): (lines: seq<string>)
    ensures |lines| == |vals|
  {
    seq(|vals|, a requires 0 <= a < |vals| => CaseLine(lead, mid, a, vals[a]))
  }

  /** Emitting one more arm extends the arms of the shorter table. */
  lemma ArmLinesSnoc(lead: string, mid: string, vals: seq<int>, k: nat)
    requires k < |vals|
    ensures ArmLines(lead, mid, vals[..k + 1])
            == ArmLines(lead, mid, vals[..k]) + [CaseLine(lead, mid, k, vals[k])]
  {
    var longer, shorter := ArmLines(lead, mid, vals[..k + 1]), ArmLines(lead, mid, vals[..k]);
    forall i | 0 <= i <= k
      ensures longer[i] == (shorter + [CaseLine(lead, mid, k, vals[k])])[i]
    {
      if i < k {
        assert longer[i] == CaseLine(lead, mid, i, vals[i]) == shorter[i];
      }
    }
  }

  /** Length of the longest prefix of s made of decimal digits. */
  function DigitRun(s: string): (k: nat)
    ensures k <= |s| && AllDec(s[..k])
  {
    if s == [] || !IsDecDigit(s[0]) then 0
    else
      var k := 1 + DigitRun(s[1..]);
      assert s[..k] == [s[0]] + s[1..][..k - 1];
      k
  }

  /** Reads an arm line: the lead, a non-empty decimal address, the mid part,
      exactly four upper-case hexadecimal digits, then ';' ending the line.
      Yields the address and the value, or None for any other line. */
  function ParseArm(line: string, lead: string, mid: string): (r: Option<(nat, nat)>)
    ensures r.Some? ==> r.value.1 < 0x10000
  {
    if |line| < |lead| || line[..|lead|] != lead then None
    else
      var rest := line[|lead|..];
      var k := DigitRun(rest);
      var tail := rest[k..];
      if k == 0 || |tail| != |mid| + 5 || tail[..|mid|] != mid || tail[|mid| + 4] != ';' then None
      else
        var hex := tail[|mid|..|mid| + 4];
        if !AllHex(hex) then None
        else
          assert HexValue(hex) < 0x10000 by { HexValueBound(hex); assert Pow16(4) == 0x10000; }
          Some((DecValue(rest[..k]), HexValue(hex)))
  }

  lemma {:induction false} HexValueBound(s: string)
    requires AllHex(s)
    ensures HexValue(s) < Pow16(|s|)
    decreases |s|
  {
    if s != [] {
      HexValueBound(s[..|s| - 1]);
    }
  }

  function Pow16(k: nat): (p: nat)
    ensures p >= 1
  {
    if k == 0 then 1 else 16 * Pow16(k - 1)
  }

  lemma {:induction false} DigitRunOfDigits(d: string, t: string)
    requires AllDec(d)
    requires t != [] && !IsDecDigit(t[0])
    ensures DigitRun(d + t) == |d|
    decreases |d|
  {
    var s := d + t;
    if d != [] {
      assert s[0] == d[0] && IsDecDigit(d[0]);
      assert s[1..] == d[1..] + t;
      assert AllDec(d[1..]) by {
        forall i | 0 <= i < |d| - 1 ensures IsDecDigit(d[1..][i]) {
          assert d[1..][i] == d[i + 1];
        }
      }
      DigitRunOfDigits(d[1..], t);
    } else {
      assert s == t;
    }
  }

  /** Every emitted arm of a 16-bit value reads back as its address and value. */
  lemma ArmRoundTrip(lead: string, mid: string, addr: nat, v: int)
    requires mid != [] && !IsDecDigit(mid[0])
    requires 0 <= v < 0x10000
    ensures ParseArm(CaseLine(lead, mid, addr, v), lead, mid) == Some((addr, v))
  {
    var d, h := DecDigits(addr), Hex04(v);
    Hex04Exact(v);
    DecRoundTrip(addr);
    var line := CaseLine(lead, mid, addr, v);
    assert line == lead + (d + (mid + h + ";"));
    var rest := line[|lead|..];
    assert line[..|lead|] == lead;
    assert rest == d + (mid + h + ";");
    DigitRunOfDigits(d, mid + h + ";");
    assert rest[..|d|] == d;
    var tail := rest[|d|..];
    assert tail == mid + h + ";";
    assert tail[..|mid|] == mid;
    assert tail[|mid|..|mid| + 4] == h;
  }

  // ---------------------------------------------------------------------
  // Case selection

  /** The value chosen for address x by the arms among `lines`: the first
      line that reads as an arm for x, or None when the default arm applies. */
  function Select(lines: seq<string>, lead: string, mid: string, x: nat): Option<nat> {
    if lines == [] then None
    else
      match ParseArm(lines[0], lead, mid)
      case Some((a, v)) => if a == x then Some(v) else Select(lines[1..], lead, mid, x)
      case None => Select(lines[1..], lead, mid, x)
  }

  /** Lines that are not arms are skipped by the selection. */
  lemma {:induction false} SelectSkipsNonArms(p: seq<string>, q: seq<string>, lead: string, mid: string, x: nat)
    requires forall i :: 0 <= i < |p| ==> ParseArm(p[i], lead, mid).None?
    ensures Select(p + q, lead, mid, x) == Select(q, lead, mid, x)
    decreases |p|
  {
    if p != [] {
      assert (p + q)[1..] == p[1..] + q;
      SelectSkipsNonArms(p[1..], q, lead, mid, x);
    } else {
      assert p + q == q;
    }
  }

  /** Lines that are not arms select nothing. */
  lemma {:induction false} SelectNone(p: seq<string>, lead: string, mid: string, x: nat)
    requires forall i :: 0 <= i < |p| ==> ParseArm(p[i], lead, mid).None?
    ensures Select(p, lead, mid, x) == None
    decreases |p|
  {
    if p != [] {
      SelectNone(p[1..], lead, mid, x);
    }
  }

  /** Over the arms of addresses k, k+1, ..., address x selects its own value
      when it is among them and nothing otherwise. */
  lemma {:induction false} SelectArmsFrom(lead: string, mid: string, vals: seq<int>, k: nat, x: nat)
    requires mid != [] && !IsDecDigit(mid[0])
    requires forall a :: 0 <= a < |vals| ==> 0 <= vals[a] < 0x10000
    requires k <= |vals|
    ensures Select(ArmLines(lead, mid, vals)[k..], lead, mid, x)
            == if k <= x < |vals| then Some(vals[x]) else None
    decreases |vals| - k
  {
    var lines := ArmLines(lead, mid, vals)[k..];
    if k < |vals| {
      ArmRoundTrip(lead, mid, k, vals[k]);
      assert lines[0] == CaseLine(lead, mid, k, vals[k]);
      assert lines[1..] == ArmLines(lead, mid, vals)[k + 1..];
      SelectArmsFrom(lead, mid, vals, k + 1, x);
    }
  }

  /** A case statement made of a header without arms, one arm per table
      address, and a footer without arms selects vals[x] for every address of
      the table and falls to the default arm for every other x. */
  lemma CaseSelectsTable(header: seq<string>, footer: seq<string>, lead: string, mid: string, vals: seq<int>, x: nat)
    requires mid != [] && !IsDecDigit(mid[0])
    requires forall a :: 0 <= a < |vals| ==> 0 <= vals[a] < 0x10000
    requires forall i :: 0 <= i < |header| ==> ParseArm(header[i], lead, mid).None?
    requires forall i :: 0 <= i < |footer| ==> ParseArm(footer[i], lead, mid).None?
    ensures Select(header + ArmLines(lead, mid, vals) + footer, lead, mid, x)
            == if x < |vals| then Some(vals[x]) else None
  {
    var arms := ArmLines(lead, mid, vals);
    assert header + arms + footer == header + (arms + footer);
    SelectSkipsNonArms(header, arms + footer, lead, mid, x);
    SelectArmsSuffix(arms, footer, lead, mid, x);
    SelectArmsFrom(lead, mid, vals, 0, x);
    assert arms[0..] == arms;
    if x >= |vals| {
      SelectNone(footer, lead, mid, x);
    }
  }

  /** In header + arms + footer, the line at |header| + a reads back as
      address a and its table value. */
  lemma EmittedArmsReadBack(header: seq<string>, footer: seq<string>, lead: string, mid: string, vals: seq<int>)
    requires mid != [] && !IsDecDigit(mid[0])
    requires forall a :: 0 <= a < |vals| ==> 0 <= vals[a] < 0x10000
    ensures forall a: nat :: a < |vals| ==>
              ParseArm((header + ArmLines(lead, mid, vals) + footer)[|header| + a], lead, mid) == Some((a, vals[a]))
  {
    var lines := header + ArmLines(lead, mid, vals) + footer;
    forall a: nat | a < |vals|
      ensures ParseArm(lines[|header| + a], lead, mid) == Some((a, vals[a]))
    {
      assert lines[|header| + a] == CaseLine(lead, mid, a, vals[a]);
      ArmRoundTrip(lead, mid, a, vals[a]);
    }
  }

  /** Selection over arms followed by other lines: the arms decide when one
      matches, the rest otherwise. */
  lemma {:induction false} SelectArmsSuffix(p: seq<string>, q: seq<string>, lead: string, mid: string, x: nat)
    ensures Select(p + q, lead, mid, x)
            == if Select(p, lead, mid, x).Some? then Select(p, lead, mid, x) else Select(q, lead, mid, x)
    decreases |p|
  {
    if p != [] {
      assert (p + q)[1..] == p[1..] + q;
      assert (p + q)[0] == p[0];
      SelectArmsSuffix(p[1..], q, lead, mid, x);
    } else {
      assert p + q == q;
    }
  }
}
