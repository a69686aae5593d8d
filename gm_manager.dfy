/**
 * The firmware side of `GmManager`: the checks `FirmwareUploadArgs.__init__`
 * makes on the flat list of flash addresses and file names before anything
 * is written to the chip, and the firmware-file derivation and control flow
 * of `_firmware_download_task`.
 *
 * Files are modelled by their sizes (a map from path to size; a path that is
 * not in it cannot be opened). The flash sector size is `2^sectorBits`.
 */
module GmManager {
  import opened Wrappers
  import opened Text

  // ---------------------------------------------------------------------
  // Python's int(s, 0)

  /** The value of a digit character in bases up to 36. */
  function DigitOf(c: char): Option<nat> {
    if '0' <= c <= '9' then Some(c as nat - '0' as nat)
    else if 'a' <= c <= 'z' then Some(c as nat - 'a' as nat + 10)
    else if 'A' <= c <= 'Z' then Some(c as nat - 'A' as nat + 10)
    else None
  }

  predicate IsDigitIn(c: char, base: nat) {
    DigitOf(c).Some? && DigitOf(c).value < base
  }

  predicate AllDigitsIn(s: string, base: nat) {
    forall i | 0 <= i < |s| :: IsDigitIn(s[i], base)
  }

  /** The number the digits `s` write in `base`, most significant first. */
  function ValueIn(s: string, base: nat): nat
    requires AllDigitsIn(s, base)
  {
    if s == [] then 0
    else ValueIn(s[..|s| - 1], base) * base + DigitOf(s[|s| - 1]).value
  }

  /** A base prefix of `int(s, 0)`: `0x`, `0o` or `0b` in either case. */
  function PrefixBase(s: string): nat {
    if |s| < 2 || s[0] != '0' then 10
    else if s[1] == 'x' || s[1] == 'X' then 16
    else if s[1] == 'o' || s[1] == 'O' then 8
    else if s[1] == 'b' || s[1] == 'B' then 2
    else 10
  }

  /** An unsigned literal of `int(s, 0)`: a prefixed literal in its base, or
      a decimal one, which may start with `0` only when all its digits are
      `0`. */
  function ParseUnsigned(s: string): Option<nat> {
    var base := PrefixBase(s);
    var digits := if base == 10 then s else s[2..];
    if digits == [] || !AllDigitsIn(digits, base) then None
    else if base == 10 && digits[0] == '0' && !AllDigitsIn(digits, 1) then None
    else Some(ValueIn(digits, base))
  }

  /** `int(s, 0)`: surrounding whitespace and one sign are allowed; `None`
      stands for the `ValueError`. */
  function ParseInt(s: string): Option<int> {
    var t := Strip(s);
    if t != [] && (t[0] == '-' || t[0] == '+') then
      match ParseUnsigned(t[1..])
      case None => None
      case Some(n) => Some(if t[0] == '-' then -(n as int) else n as int)
    else
      match ParseUnsigned(t)
      case None => None
      case Some(n) => Some(n)
  }

  /** `int` reads back what `%x` writes, after `0x`. */
  lemma ParseHex(n: nat)
    ensures ParseInt("0x" + Hex(n)) == Some(n)
  {
    var s := "0x" + Hex(n);
    HexDigits(n);
    NoSpaceStrips(s);
    assert s[2..] == Hex(n);
    assert PrefixBase(s) == 16;
  }

  /** `int` reads back what `%d` writes. */
  lemma ParseDecimal(n: nat)
    ensures ParseInt(Decimal(n)) == Some(n)
  {
    var s := Decimal(n);
    DecimalDigits(n);
    NoSpaceStrips(s);
    assert PrefixBase(s) == 10 by {
      if |s| >= 2 && s[0] == '0' {
        DecimalLeads(n);
      }
    }
    if s[0] == '0' {
      DecimalLeads(n);
      assert AllDigitsIn(s, 1);
    }
  }

  /** `DigitOf` reads back the digit `DigitChar` writes, which is neither
      whitespace nor a sign. */
  lemma DigitCharValue(d: nat)
    requires d < 16
    ensures DigitOf(DigitChar(d)) == Some(d)
    ensures !IsSpace(DigitChar(d)) && DigitChar(d) != '-' && DigitChar(d) != '+'
  {
    if d < 8 {
      assert d == 0 || d == 1 || d == 2 || d == 3 || d == 4 || d == 5 || d == 6 || d == 7;
    } else {
      assert d == 8 || d == 9 || d == 10 || d == 11 || d == 12 || d == 13 || d == 14 || d == 15;
    }
  }

  /** No character `%x` or `%d` writes is whitespace or a sign. */
  predicate Unsigned(s: string) {
    forall i | 0 <= i < |s| :: !IsSpace(s[i]) && s[i] != '-' && s[i] != '+'
  }

  /** Writing one more digit multiplies the value by the base and adds it. */
  lemma ValueSnoc(s: string, c: char, base: nat)
    requires AllDigitsIn(s, base) && IsDigitIn(c, base) && Unsigned(s) && Unsigned([c])
    ensures AllDigitsIn(s + [c], base) && Unsigned(s + [c])
    ensures ValueIn(s + [c], base) == ValueIn(s, base) * base + DigitOf(c).value
  {
    assert (s + [c])[..|s|] == s;
  }

  /** What `%x` writes are digits of its base, with no whitespace or
      sign, whose value is the number. */
  lemma {:induction false} HexDigits(n: nat)
    ensures AllDigitsIn(Hex(n), 16) && ValueIn(Hex(n), 16) == n
    ensures Unsigned(Hex(n))
  {
    if n >= 16 {
      var c := DigitChar(n % 16);
      DigitCharValue(n % 16);
      HexDigits(n / 16);
      ValueSnoc(Hex(n / 16), c, 16);
      assert Hex(n) == Hex(n / 16) + [c];
    } else {
      DigitCharValue(n);
      ValueSnoc([], DigitChar(n), 16);
      assert [] + [DigitChar(n)] == Hex(n);
    }
  }

  /** What `%d` writes are digits of its base, with no whitespace or
      sign, whose value is the number. */
  lemma {:induction false} DecimalDigits(n: nat)
    ensures AllDigitsIn(Decimal(n), 10) && ValueIn(Decimal(n), 10) == n
    ensures Unsigned(Decimal(n))
  {
    if n >= 10 {
      var c := DigitChar(n % 10);
      DigitCharValue(n % 10);
      DecimalDigits(n / 10);
      ValueSnoc(Decimal(n / 10), c, 10);
      assert Decimal(n) == Decimal(n / 10) + [c];
    } else {
      DigitCharValue(n);
      ValueSnoc([], DigitChar(n), 10);
      assert [] + [DigitChar(n)] == Decimal(n);
    }
  }

  /** `%d` writes a leading zero only for zero itself. */
  lemma {:induction false} DecimalLeads(n: nat)
    ensures Decimal(n)[0] == '0' <==> n == 0
    ensures n == 0 ==> Decimal(n) == "0"
  {
    if n >= 10 {
      DecimalLeads(n / 10);
    }
  }

  /** `strip` keeps a text with no whitespace in it. */
  lemma NoSpaceStrips(s: string)
    requires Unsigned(s)
    ensures Strip(s) == s
  {
    if s != [] {
      assert LeadingSpaces(s) == 0;
      assert s[0..] == s;
    }
  }

  /** The addresses of `_firmware_upload_task`: bootloader, application
      and partition table. */
  lemma BootloaderAddress()
    ensures ParseInt("0x1000") == Some(4096)
  {
    HexPowers();
    ParseHexLiteral("0x1000", 4096);
  }

  lemma ApplicationAddress()
    ensures ParseInt("0x10000") == Some(65536)
  {
    HexPowers();
    ParseHexLiteral("0x10000", 65536);
  }

  lemma PartitionsAddress()
    ensures ParseInt("0x8000") == Some(32768)
  {
    HexPowers();
    ParseHexLiteral("0x8000", 32768);
  }

  lemma ParseHexLiteral(s: string, n: nat)
    requires s == "0x" + Hex(n)
    ensures ParseInt(s) == Some(n)
  {
    ParseHex(n);
  }

  lemma HexPowers()
    ensures Hex(4096) == "1000" && Hex(65536) == "10000" && Hex(32768) == "8000"
  {
    assert Hex(1) == "1" && Hex(8) == "8";
    assert Hex(16) == "10" && Hex(128) == "80";
    assert Hex(256) == "100" && Hex(2048) == "800";
    assert Hex(4096) == "1000" && Hex(32768) == "8000";
  }

  /** A word is not a number; neither is a decimal with a leading zero. */
  lemma NotNumbers()
    ensures ParseInt("boot") == None
    ensures ParseInt("010") == None
  {
    assert !IsSpace('b') && !IsSpace('0');
    NoSpaceStrips("boot");
    NoSpaceStrips("010");
    assert !AllDigitsIn("010", 1) by { assert !IsDigitIn("010"[1], 1); }
    assert !AllDigitsIn("boot", 10) by { assert !IsDigitIn("boot"[0], 10); }
  }

  // ---------------------------------------------------------------------
  // Flash sectors

  function Pow2(k: nat): (p: nat)
    ensures p >= 1
  {
    if k == 0 then 1 else 2 * Pow2(k - 1)
  }

  /** `x & ~(2^k - 1)` on Python's unbounded two's-complement integers: `x`
      with its `k` low bits cleared. */
  function ClearLowBits(x: int, k: nat): int
    decreases k
  {
    if k == 0 then x else 2 * ClearLowBits(x / 2, k - 1)
  }

  /** Division with remainder has one answer. */
  lemma DivModUnique(x: int, m: int, q: int, r: int)
    requires m > 0 && x == m * q + r && 0 <= r < m
    ensures x / m == q && x % m == r
  {
    var q', r' := x / m, x % m;
    assert x == m * q' + r';
    if q' > q {
      assert m * q' >= m * (q + 1) by { MulMono(m, q + 1, q'); }
    } else if q' < q {
      assert m * q >= m * (q' + 1) by { MulMono(m, q' + 1, q); }
    }
  }

  lemma MulMono(m: int, a: int, b: int)
    requires m > 0 && a <= b
    ensures m * a <= m * b
  {
  }

  /** Clearing the low `k` bits rounds down to a multiple of `2^k`. */
  lemma {:induction false} ClearLowBitsIs(x: int, k: nat)
    ensures ClearLowBits(x, k) == x - x % Pow2(k)
    decreases k
  {
    if k > 0 {
      ClearLowBitsIs(x / 2, k - 1);
      HalfRound(x, Pow2(k - 1));
    }
  }

  /** Rounding down to a multiple of `2p` is rounding the half down to a
      multiple of `p`, doubled. */
  lemma HalfRound(x: int, p: int)
    requires p > 0
    ensures x - x % (2 * p) == 2 * (x / 2 - (x / 2) % p)
  {
    var h, r := x / 2, x % 2;
    var q, b := h / p, h % p;
    assert x == 2 * h + r;
    assert h == p * q + b;
    assert x == (2 * p) * q + (2 * b + r) by {
      assert 2 * (p * q) == (2 * p) * q;
    }
    DivModUnique(x, 2 * p, q, 2 * b + r);
  }

  /** `sector_start`: the first byte of the sector holding `address`. */
  function SectorStart(address: int, sectorBits: nat): int {
    ClearLowBits(address, sectorBits)
  }

  /** `sector_end`: the last byte of the last sector a file of `size` bytes
      at `address` touches. */
  function SectorEnd(address: int, size: nat, sectorBits: nat): int {
    ClearLowBits(address + size + Pow2(sectorBits) - 1, sectorBits) - 1
  }

  /** The sector-aligned range covers the file and nothing beyond its first
      and last sectors. */
  lemma SectorBounds(address: int, size: nat, sectorBits: nat)
    ensures var start, S := SectorStart(address, sectorBits), Pow2(sectorBits);
      start % S == 0 && start <= address < start + S
    ensures var end, S := SectorEnd(address, size, sectorBits), Pow2(sectorBits);
      (end + 1) % S == 0 && address + size <= end + 1 < address + size + S
  {
    var S := Pow2(sectorBits);
    ClearLowBitsIs(address, sectorBits);
    RoundDown(address, S);
    ClearLowBitsIs(address + size + S - 1, sectorBits);
    RoundDown(address + size + S - 1, S);
  }

  /** `x - x % m` is the multiple of `m` at or just below `x`. */
  lemma RoundDown(x: int, m: int)
    requires m > 0
    ensures (x - x % m) % m == 0
    ensures x - x % m <= x < x - x % m + m
  {
    assert x == m * (x / m) + x % m;
    DivModUnique(x - x % m, m, x / m, 0);
  }

  // ---------------------------------------------------------------------
  // FirmwareUploadArgs

  /** An address with the file to write there; the file is known by its
      path and size. */
  datatype Pair = Pair(address: int, path: string, size: nat)

  /** Why the arguments are refused. */
  datatype ArgError =
    | BadAddress(text: string)        // `int(_, 0)` raised ValueError
    | NotPaired                       // an address with no file name after it
    | OpenFailed(path: string)        // `open` raised IOError
    | Unorderable                     // `sorted` compared two file objects
    | Overlap(address: int, path: string)

  /** The text of the raised exception, where the code writes one itself. */
  function ArgMessage(e: ArgError): Option<string> {
    match e
    case BadAddress(t) => Some("Address \"" + t + "\" must be a number")
    case NotPaired => Some("Must be pairs of an address and the binary filename to write there")
    case Overlap(a, path) => Some("Detected overlap at address: 0x" + SignedHex(a) + " for file: " + path)
    case _ => None
  }

  /** The validated arguments: the port and the pairs in input order. */
  datatype UploadArgs = UploadArgs(port: Option<string>, addrFilename: seq<Pair>)

  /** The pairs read from `values[i..]`, two values at a time, with
      `number` reading the addresses; a file can be opened when its path is
      in `files`, which gives its size. */
  function PairsFrom(number: string -> Option<int>, values: seq<string>, files: map<string, nat>, i: nat)
    : Result<seq<Pair>, ArgError>
    decreases |values| - i
  {
    if i >= |values| then Ok([])
    else match number(values[i])
      case None => Err(BadAddress(values[i]))
      case Some(a) =>
        if i + 1 >= |values| then Err(NotPaired)
        else if values[i + 1] !in files then Err(OpenFailed(values[i + 1]))
        else Before([Pair(a, values[i + 1], files[values[i + 1]])], PairsFrom(number, values, files, i + 2))
  }

  /** `ps` followed by the pairs of `r`, or the error of `r`. */
  function Before(ps: seq<Pair>, r: Result<seq<Pair>, ArgError>): Result<seq<Pair>, ArgError> {
    match r
    case Err(e) => Err(e)
    case Ok(rest) => Ok(ps + rest)
  }

  predicate DistinctAddresses(ps: seq<Pair>) {
    forall i, j | 0 <= i < j < |ps| :: ps[i].address != ps[j].address
  }

  /** `sorted(pairs)` once no two addresses are equal: tuples are ordered by
      their first element. */
  function SortByAddress(ps: seq<Pair>): seq<Pair> {
    if ps == [] then [] else InsertByAddress(ps[0], SortByAddress(ps[1..]))
  }

  function InsertByAddress(p: Pair, s: seq<Pair>): seq<Pair> {
    if s == [] || p.address < s[0].address then [p] + s
    else [s[0]] + InsertByAddress(p, s[1..])
  }

  predicate AscendingAddresses(s: seq<Pair>) {
    forall i | 0 < i < |s| :: s[i - 1].address <= s[i].address
  }

  lemma {:induction false} InsertKeeps(p: Pair, s: seq<Pair>)
    ensures multiset(InsertByAddress(p, s)) == multiset(s) + multiset{p}
  {
    if s != [] && p.address >= s[0].address {
      InsertKeeps(p, s[1..]);
      assert s == [s[0]] + s[1..];
    }
  }

  lemma {:induction false} InsertSorts(p: Pair, s: seq<Pair>)
    requires AscendingAddresses(s)
    ensures AscendingAddresses(InsertByAddress(p, s))
  {
    if s != [] && p.address >= s[0].address {
      var rest := s[1..];
      InsertSorts(p, rest);
      var t := InsertByAddress(p, rest);
      assert t[0] == p || t[0] == rest[0];
      var u := [s[0]] + t;
      forall i | 0 < i < |u|
        ensures u[i - 1].address <= u[i].address
      {
        if i > 1 {
          assert u[i - 1] == t[i - 2] && u[i] == t[i - 1];
        }
      }
    }
  }

  /** `sorted` returns the same pairs ordered by address. */
  lemma {:induction false} SortByAddressSorts(ps: seq<Pair>)
    ensures AscendingAddresses(SortByAddress(ps))
    ensures multiset(SortByAddress(ps)) == multiset(ps)
  {
    if ps != [] {
      SortByAddressSorts(ps[1..]);
      InsertSorts(ps[0], SortByAddress(ps[1..]));
      InsertKeeps(ps[0], SortByAddress(ps[1..]));
      assert ps == [ps[0]] + ps[1..];
    }
  }

  /** The running `end` the overlap check compares the `i`-th sorted pair
      against: 0 for the first, the previous pair's `sector_end` after. */
  function EndBefore(s: seq<Pair>, sectorBits: nat, end: int, i: nat): int
    requires i < |s|
  {
    if i == 0 then end else SectorEnd(s[i - 1].address, s[i - 1].size, sectorBits)
  }

  predicate Fits(s: seq<Pair>, sectorBits: nat, end: int, i: nat)
    requires i < |s|
  {
    SectorStart(s[i].address, sectorBits) >= EndBefore(s, sectorBits, end, i)
  }

  /** The pair the overlap check raises on, going through `s` with the
      running bound `end`. */
  function FirstOverlap(s: seq<Pair>, sectorBits: nat, end: int): Option<Pair> {
    if s == [] then None
    else if SectorStart(s[0].address, sectorBits) < end then Some(s[0])
    else FirstOverlap(s[1..], sectorBits, SectorEnd(s[0].address, s[0].size, sectorBits))
  }

  /** `FirmwareUploadArgs(port, values)`. */
  function UploadArgsOf(port: Option<string>, values: seq<string>, files: map<string, nat>, sectorBits: nat)
    : Result<UploadArgs, ArgError>
  {
    match PairsFrom(ParseInt, values, files, 0)
    case Err(e) => Err(e)
    case Ok(pairs) => Checked(port, pairs, sectorBits)
  }

  /** `sorted(pairs)` and the overlap check over the sorted pairs. */
  function Checked(port: Option<string>, pairs: seq<Pair>, sectorBits: nat): Result<UploadArgs, ArgError> {
    if !DistinctAddresses(pairs) then Err(Unorderable)
    else match FirstOverlap(SortByAddress(pairs), sectorBits, 0)
      case Some(p) => Err(Overlap(p.address, p.path))
      case None => Ok(UploadArgs(port, pairs))
  }

  lemma BeforeBefore(ps: seq<Pair>, qs: seq<Pair>, r: Result<seq<Pair>, ArgError>)
    ensures Before(ps, Before(qs, r)) == Before(ps + qs, r)
  {
    if r.Ok? {
      assert ps + (qs + r.value) == (ps + qs) + r.value;
    }
  }

  /** Every address in `values[i..]` is a number and is followed by the
      name of a file that opens. */
  ghost predicate WellPaired(number: string -> Option<int>, values: seq<string>, files: map<string, nat>, i: nat) {
    forall k: nat | i + 2 * k < |values| ::
      number(values[i + 2 * k]).Some? && i + 2 * k + 1 < |values| && values[i + 2 * k + 1] in files
  }

  lemma BeforeNothing(r: Result<seq<Pair>, ArgError>)
    ensures Before([], r) == r
  {
    if r.Ok? {
      assert [] + r.value == r.value;
    }
  }

  /** The pairing loop succeeds exactly on a well-paired list. */
  lemma {:induction false} PairsFromOk(number: string -> Option<int>, values: seq<string>, files: map<string, nat>, i: nat)
    requires i <= |values|
    ensures PairsFrom(number, values, files, i).Ok? <==> WellPaired(number, values, files, i)
    decreases |values| - i
  {
    if i < |values| && number(values[i]).Some? && i + 1 < |values| && values[i + 1] in files {
      PairsFromOk(number, values, files, i + 2);
      assert PairsFrom(number, values, files, i).Ok? == PairsFrom(number, values, files, i + 2).Ok?;
      if WellPaired(number, values, files, i) {
        forall k: nat | i + 2 + 2 * k < |values|
          ensures number(values[i + 2 + 2 * k]).Some? && i + 2 + 2 * k + 1 < |values| && values[i + 2 + 2 * k + 1] in files
        {
          assert i + 2 * (k + 1) == i + 2 + 2 * k;
        }
      }
      if WellPaired(number, values, files, i + 2) {
        forall k: nat | i + 2 * k < |values|
          ensures number(values[i + 2 * k]).Some? && i + 2 * k + 1 < |values| && values[i + 2 * k + 1] in files
        {
          if k > 0 {
            assert i + 2 + 2 * (k - 1) == i + 2 * k;
          }
        }
      }
    } else if i < |values| {
      assert i + 2 * 0 == i;
    }
  }

  /** A successful pairing yields one pair per address and file name, in
      input order. */
  lemma {:induction false} PairsFromOrder(number: string -> Option<int>, values: seq<string>, files: map<string, nat>, i: nat)
    requires i <= |values|
    requires PairsFrom(number, values, files, i).Ok?
    ensures var ps := PairsFrom(number, values, files, i).value;
      && 2 * |ps| == |values| - i
      && forall j | 0 <= j < |ps| ::
           && number(values[i + 2 * j]).Some? && values[i + 2 * j + 1] in files
           && ps[j] == Pair(number(values[i + 2 * j]).value, values[i + 2 * j + 1], files[values[i + 2 * j + 1]])
    decreases |values| - i
  {
    if i < |values| {
      var r := PairsFrom(number, values, files, i + 2);
      PairsFromOrder(number, values, files, i + 2);
      var ps := PairsFrom(number, values, files, i).value;
      assert ps == [ps[0]] + r.value;
      forall j | 0 <= j < |ps|
        ensures && number(values[i + 2 * j]).Some? && values[i + 2 * j + 1] in files
                && ps[j] == Pair(number(values[i + 2 * j]).value, values[i + 2 * j + 1], files[values[i + 2 * j + 1]])
      {
        if j > 0 {
          assert ps[j] == r.value[j - 1];
          assert i + 2 + 2 * (j - 1) == i + 2 * j;
        }
      }
    }
  }

  /** The pairing loop raises only its own three errors, and a missing file
      name after the last address means the list has odd length. */
  lemma {:induction false} PairsFromErrors(number: string -> Option<int>, values: seq<string>, files: map<string, nat>, i: nat)
    requires i <= |values|
    ensures var r := PairsFrom(number, values, files, i);
      r.Err? ==> r.error.BadAddress? || r.error.NotPaired? || r.error.OpenFailed?
    ensures PairsFrom(number, values, files, i) == Err(NotPaired) ==> (|values| - i) % 2 == 1
    decreases |values| - i
  {
    if i < |values| && number(values[i]).Some? && i + 1 < |values| && values[i + 1] in files {
      PairsFromErrors(number, values, files, i + 2);
    }
  }

  /** The `i`-th pair of `s` and the `i`-th pair of `s[1..]`, whose bound
      starts at the first pair's sector end, are compared against the same
      bound. */
  lemma FitsShift(s: seq<Pair>, sectorBits: nat, end: int, i: nat)
    requires 0 < i < |s|
    ensures Fits(s, sectorBits, end, i)
       <==> Fits(s[1..], sectorBits, SectorEnd(s[0].address, s[0].size, sectorBits), i - 1)
  {
  }

  /** Every pair of `s` starts at or above its bound. */
  predicate AllFit(s: seq<Pair>, sectorBits: nat, end: int) {
    forall i | 0 <= i < |s| :: Fits(s, sectorBits, end, i)
  }

  /** Pair `i` is the first of `s` that starts below its bound. */
  predicate FirstUnfit(s: seq<Pair>, sectorBits: nat, end: int, i: nat) {
    && i < |s|
    && !Fits(s, sectorBits, end, i)
    && forall j | 0 <= j < i :: Fits(s, sectorBits, end, j)
  }

  /** The overlap check raises exactly when some pair starts below the
      bound it is compared against, and it raises on the first such pair. */
  lemma {:induction false} FirstOverlapIs(s: seq<Pair>, sectorBits: nat, end: int)
    ensures FirstOverlap(s, sectorBits, end).None?
       <==> AllFit(s, sectorBits, end)
    ensures FirstOverlap(s, sectorBits, end).Some? ==>
      exists i | 0 <= i < |s| ::
        FirstUnfit(s, sectorBits, end, i) && FirstOverlap(s, sectorBits, end) == Some(s[i])
  {
    if s != [] && SectorStart(s[0].address, sectorBits) >= end {
      var e := SectorEnd(s[0].address, s[0].size, sectorBits);
      FirstOverlapIs(s[1..], sectorBits, e);
      forall i | 0 < i < |s| {
        FitsShift(s, sectorBits, end, i);
      }
      if FirstOverlap(s, sectorBits, end).Some? {
        var i :| 0 <= i < |s[1..]| && FirstUnfit(s[1..], sectorBits, e, i)
          && FirstOverlap(s[1..], sectorBits, e) == Some(s[1..][i]);
        assert !Fits(s, sectorBits, end, i + 1);
        forall j | 0 <= j < i + 1
          ensures Fits(s, sectorBits, end, j)
        {
          if j > 0 {
            assert Fits(s[1..], sectorBits, e, j - 1);
          }
        }
        assert FirstUnfit(s, sectorBits, end, i + 1);
      } else {
        forall i | 0 <= i < |s|
          ensures Fits(s, sectorBits, end, i)
        {
          if i > 0 {
            assert Fits(s[1..], sectorBits, e, i - 1);
          }
        }
      }
    } else if s != [] {
      assert FirstUnfit(s, sectorBits, end, 0);
    }
  }

  /** With sectors of at least two bytes, arguments that pass the overlap
      check have pairwise disjoint sector ranges: a range ends before every
      later range in address order starts. */
  lemma {:induction false} AcceptedDisjoint(s: seq<Pair>, sectorBits: nat, end: int, i: nat, j: nat)
    requires sectorBits >= 1
    requires AllFit(s, sectorBits, end)
    requires i < j < |s|
    ensures SectorEnd(s[i].address, s[i].size, sectorBits) < SectorStart(s[j].address, sectorBits)
    decreases j
  {
    var a, b := s[j - 1], s[j];
    SectorBounds(b.address, b.size, sectorBits);
    SectorBounds(a.address, a.size, sectorBits);
    assert Fits(s, sectorBits, end, j);
    assert SectorStart(b.address, sectorBits) > SectorEnd(a.address, a.size, sectorBits) by {
      AlignedApart(SectorStart(b.address, sectorBits), SectorEnd(a.address, a.size, sectorBits), Pow2(sectorBits));
    }
    if i < j - 1 {
      AcceptedDisjoint(s, sectorBits, end, i, j - 1);
    }
  }

  /** A multiple of `m` and a number one below a multiple of `m` differ
      when `m >= 2`. */
  lemma AlignedApart(x: int, y: int, m: int)
    requires m >= 2 && x % m == 0 && (y + 1) % m == 0
    ensures x != y
  {
    if x == y {
      DivModUnique(x + 1, m, x / m, 1);
    }
  }

  lemma Pow2Positive(k: nat)
    requires k >= 1
    ensures Pow2(k) >= 2
  {
  }

  /** The sorted pairs are accepted exactly when no two addresses are equal
      and every pair starts at or above its bound; the arguments then hold
      the pairs as given. */
  lemma CheckedAccepts(port: Option<string>, pairs: seq<Pair>, sectorBits: nat)
    ensures Checked(port, pairs, sectorBits).Ok? <==>
      && DistinctAddresses(pairs)
      && AllFit(SortByAddress(pairs), sectorBits, 0)
    ensures Checked(port, pairs, sectorBits).Ok? ==>
      Checked(port, pairs, sectorBits).value == UploadArgs(port, pairs)
    ensures Checked(port, pairs, sectorBits).Err? ==>
      Checked(port, pairs, sectorBits).error.Unorderable? || Checked(port, pairs, sectorBits).error.Overlap?
  {
    if DistinctAddresses(pairs) {
      FirstOverlapIs(SortByAddress(pairs), sectorBits, 0);
    }
  }

  /** An overlap is reported for the first pair, in address order, that
      starts below its bound. */
  lemma CheckedOverlap(port: Option<string>, pairs: seq<Pair>, sectorBits: nat)
    requires Checked(port, pairs, sectorBits).Err?
    requires Checked(port, pairs, sectorBits).error.Overlap?
    ensures exists i | 0 <= i < |pairs| ::
      && FirstUnfit(SortByAddress(pairs), sectorBits, 0, i)
      && Checked(port, pairs, sectorBits).error
         == Overlap(SortByAddress(pairs)[i].address, SortByAddress(pairs)[i].path)
  {
    var s := SortByAddress(pairs);
    SortByAddressSorts(pairs);
    assert |s| == |pairs| by {
      assert |multiset(s)| == |multiset(pairs)|;
    }
    FirstOverlapIs(s, sectorBits, 0);
    var i :| 0 <= i < |s| && FirstUnfit(s, sectorBits, 0, i) && FirstOverlap(s, sectorBits, 0) == Some(s[i]);
    assert Checked(port, pairs, sectorBits).error == Overlap(s[i].address, s[i].path);
  }

  /** `FirmwareUploadArgs(port, values)` succeeds exactly when every
      address is a number followed by a file that opens and the pairs pass
      the sorted check; it then holds the pairs in input order, as
      `PairsFromOrder` describes them. */
  lemma UploadArgsAccepted(port: Option<string>, values: seq<string>, files: map<string, nat>, sectorBits: nat)
    ensures UploadArgsOf(port, values, files, sectorBits).Ok? <==>
      && WellPaired(ParseInt, values, files, 0)
      && PairsFrom(ParseInt, values, files, 0).Ok?
      && Checked(port, PairsFrom(ParseInt, values, files, 0).value, sectorBits).Ok?
    ensures UploadArgsOf(port, values, files, sectorBits).Ok? ==>
      UploadArgsOf(port, values, files, sectorBits).value
      == UploadArgs(port, PairsFrom(ParseInt, values, files, 0).value)
  {
    PairsFromOk(ParseInt, values, files, 0);
    var pr := PairsFrom(ParseInt, values, files, 0);
    if pr.Ok? {
      CheckedAccepts(port, pr.value, sectorBits);
    }
  }

  /** A refusal that is not about the pairing comes from the sorted check. */
  lemma UploadArgsRefused(port: Option<string>, values: seq<string>, files: map<string, nat>, sectorBits: nat)
    requires UploadArgsOf(port, values, files, sectorBits).Err?
    ensures var r := UploadArgsOf(port, values, files, sectorBits);
      var pr := PairsFrom(ParseInt, values, files, 0);
      if r.error.Overlap? || r.error.Unorderable? then pr.Ok? && Checked(port, pr.value, sectorBits) == r
      else pr == Err(r.error)
  {
    PairsFromErrors(ParseInt, values, files, 0);
  }

  /** Taken in order, each sector range of `s` ends before every later one
      starts. */
  predicate RangesApart(s: seq<Pair>, sectorBits: nat) {
    forall i, j | 0 <= i < j < |s| ::
      SectorEnd(s[i].address, s[i].size, sectorBits) < SectorStart(s[j].address, sectorBits)
  }

  /** With sectors of at least two bytes, accepted pairs, in address order,
      have sector ranges that do not overlap and lie at or above address 0. */
  lemma AcceptedRanges(port: Option<string>, pairs: seq<Pair>, sectorBits: nat)
    requires sectorBits >= 1
    requires Checked(port, pairs, sectorBits).Ok?
    ensures multiset(SortByAddress(pairs)) == multiset(pairs)
    ensures AscendingAddresses(SortByAddress(pairs))
    ensures RangesApart(SortByAddress(pairs), sectorBits)
    ensures forall i | 0 <= i < |SortByAddress(pairs)| :: SectorStart(SortByAddress(pairs)[i].address, sectorBits) >= 0
  {
    CheckedAccepts(port, pairs, sectorBits);
    var s := SortByAddress(pairs);
    SortByAddressSorts(pairs);
    forall i, j | 0 <= i < j < |s|
      ensures SectorEnd(s[i].address, s[i].size, sectorBits) < SectorStart(s[j].address, sectorBits)
    {
      AcceptedDisjoint(s, sectorBits, 0, i, j);
    }
    if s != [] {
      assert Fits(s, sectorBits, 0, 0);
      SectorBounds(s[0].address, s[0].size, sectorBits);
    }
  }

  /** The pairing loop of `FirmwareUploadArgs.__init__`. */
  method ReadPairs(values: seq<string>, files: map<string, nat>) returns (r: Result<seq<Pair>, ArgError>)
    ensures r == PairsFrom(ParseInt, values, files, 0)
  {
    var pairs: seq<Pair> := [];
    var i := 0;
    BeforeNothing(PairsFrom(ParseInt, values, files, 0));
    while i < |values|
      invariant i <= |values| && i % 2 == 0
      invariant PairsFrom(ParseInt, values, files, 0) == Before(pairs, PairsFrom(ParseInt, values, files, i))
      decreases |values| - i
    {
      var address := ParseInt(values[i]);
      if address.None? {
        return Err(BadAddress(values[i]));
      }
      if i + 1 >= |values| {
        return Err(NotPaired);
      }
      if values[i + 1] !in files {
        return Err(OpenFailed(values[i + 1]));
      }
      var p := Pair(address.value, values[i + 1], files[values[i + 1]]);
      BeforeBefore(pairs, [p], PairsFrom(ParseInt, values, files, i + 2));
      pairs := pairs + [p];
      i := i + 2;
    }
    assert pairs + [] == pairs;
    r := Ok(pairs);
  }

  /** `sorted(pairs)` and the overlap loop with its running `end`. */
  method CheckPairs(port: Option<string>, pairs: seq<Pair>, sectorBits: nat) returns (r: Result<UploadArgs, ArgError>)
    ensures r == Checked(port, pairs, sectorBits)
  {
    if !DistinctAddresses(pairs) {
      return Err(Unorderable);
    }
    var sorted := SortByAddress(pairs);
    var end := 0;
    var j := 0;
    while j < |sorted|
      invariant j <= |sorted|
      invariant FirstOverlap(sorted, sectorBits, 0) == FirstOverlap(sorted[j..], sectorBits, end)
    {
      var p := sorted[j];
      var sectorStart := SectorStart(p.address, sectorBits);
      var sectorEnd := SectorEnd(p.address, p.size, sectorBits);
      if sectorStart < end {
        return Err(Overlap(p.address, p.path));
      }
      assert sorted[j..][1..] == sorted[j + 1..];
      end := sectorEnd;
      j := j + 1;
    }
    r := Ok(UploadArgs(port, pairs));
  }

  /** `FirmwareUploadArgs(port, values)`. */
  method BuildUploadArgs(port: Option<string>, values: seq<string>, files: map<string, nat>, sectorBits: nat)
    returns (r: Result<UploadArgs, ArgError>)
    ensures r == UploadArgsOf(port, values, files, sectorBits)
  {
    var pairs := ReadPairs(values, files);
    if pairs.Err? {
      return Err(pairs.error);
    }
    r := CheckPairs(port, pairs.value, sectorBits);
  }


  /** A file's sector range ends below a sector-aligned limit exactly when
      the file itself does. */
  lemma EndsBelow(address: int, size: nat, sectorBits: nat, limit: int)
    requires limit % Pow2(sectorBits) == 0
    ensures SectorEnd(address, size, sectorBits) < limit <==> address + size <= limit
  {
    var e := SectorEnd(address, size, sectorBits) + 1;
    SectorBounds(address, size, sectorBits);
    if address + size <= limit {
      AlignedBelow(e, limit, Pow2(sectorBits));
    }
  }

  /** Of two multiples of `m`, the one less than the other plus `m` is at
      most the other. */
  lemma AlignedBelow(x: int, y: int, m: int)
    requires m > 0 && x % m == 0 && y % m == 0 && x < y + m
    ensures x <= y
  {
    var q, r := x / m, y / m;
    assert x == m * q;
    assert y == m * r;
    if q > r {
      MulMono(m, r + 1, q);
    }
  }

  /** The value list of `_firmware_upload_task`, with the files' paths. */
  function FirmwareValues(bootloader: string, application: string, partitions: string): seq<string> {
    ["0x1000", bootloader, "0x10000", application, "0x8000", partitions]
  }

  lemma FirmwarePairs(bootloader: string, application: string, partitions: string, files: map<string, nat>)
    requires bootloader in files && application in files && partitions in files
    ensures PairsFrom(ParseInt, FirmwareValues(bootloader, application, partitions), files, 0)
      == Ok([Pair(0x1000, bootloader, files[bootloader]), Pair(0x10000, application, files[application]),
             Pair(0x8000, partitions, files[partitions])])
  {
    var values := FirmwareValues(bootloader, application, partitions);
    BootloaderAddress();
    ApplicationAddress();
    PartitionsAddress();
    assert values[0] == "0x1000" && values[2] == "0x10000" && values[4] == "0x8000";
    var p0, p1, p2 := Pair(0x1000, bootloader, files[bootloader]), Pair(0x10000, application, files[application]),
      Pair(0x8000, partitions, files[partitions]);
    assert PairsFrom(ParseInt, values, files, 6) == Ok([]);
    assert [p2] + [] == [p2];
    assert PairsFrom(ParseInt, values, files, 4) == Ok([p2]);
    assert [p1] + [p2] == [p1, p2];
    assert PairsFrom(ParseInt, values, files, 2) == Ok([p1, p2]);
    assert [p0] + [p1, p2] == [p0, p1, p2];
  }

  /** With 4 KiB sectors (`2^sectorBits == 0x1000`, as on the ESP32), the
      firmware table of `_firmware_upload_task` is accepted exactly when the
      bootloader ends by the partition table at 0x8000 and the partition
      table ends by the application at 0x10000; the application may be of
      any size. */
  lemma FirmwareLayoutAccepted(port: Option<string>, bootloader: string, application: string, partitions: string,
                               files: map<string, nat>, sectorBits: nat)
    requires bootloader in files && application in files && partitions in files
    requires Pow2(sectorBits) == 0x1000
    ensures UploadArgsOf(port, FirmwareValues(bootloader, application, partitions), files, sectorBits).Ok?
      <==> files[bootloader] <= 0x7000 && files[partitions] <= 0x8000
  {
    FirmwarePairs(bootloader, application, partitions, files);
    FirmwareTableChecked(port, Pair(0x1000, bootloader, files[bootloader]), Pair(0x10000, application, files[application]),
      Pair(0x8000, partitions, files[partitions]), sectorBits);
  }

  lemma FirmwareTableChecked(port: Option<string>, boot: Pair, app: Pair, parts: Pair, sectorBits: nat)
    requires boot.address == 0x1000 && app.address == 0x10000 && parts.address == 0x8000
    requires Pow2(sectorBits) == 0x1000
    ensures Checked(port, [boot, app, parts], sectorBits).Ok? <==> boot.size <= 0x7000 && parts.size <= 0x8000
  {
    var pairs := [boot, app, parts];
    assert DistinctAddresses(pairs);
    FirmwareTableSorted(boot, app, parts);
    FirmwareTableFits(boot, parts, app, sectorBits);
    CheckedAccepts(port, pairs, sectorBits);
  }

  /** In address order, the bootloader must end by 0x8000 and the
      partition table by 0x10000. */
  lemma FirmwareTableFits(boot: Pair, parts: Pair, app: Pair, sectorBits: nat)
    requires boot.address == 0x1000 && app.address == 0x10000 && parts.address == 0x8000
    requires Pow2(sectorBits) == 0x1000
    ensures AllFit([boot, parts, app], sectorBits, 0) <==> boot.size <= 0x7000 && parts.size <= 0x8000
  {
    var s := [boot, parts, app];
    var k := sectorBits;
    FirmwareStarts(k);
    EndsBelow(0x1000, boot.size, k, 0x8000);
    EndsBelow(0x8000, parts.size, k, 0x10000);
    SectorBounds(0x1000, boot.size, k);
    SectorBounds(0x8000, parts.size, k);
    AlignedApart(0x8000, SectorEnd(0x1000, boot.size, k), 0x1000);
    AlignedApart(0x10000, SectorEnd(0x8000, parts.size, k), 0x1000);
    assert Fits(s, k, 0, 0);
    assert Fits(s, k, 0, 1) <==> boot.size <= 0x7000;
    assert Fits(s, k, 0, 2) <==> parts.size <= 0x8000;
  }

  lemma FirmwareStarts(sectorBits: nat)
    requires Pow2(sectorBits) == 0x1000
    ensures SectorStart(0x1000, sectorBits) == 0x1000
    ensures SectorStart(0x8000, sectorBits) == 0x8000
    ensures SectorStart(0x10000, sectorBits) == 0x10000
  {
    ClearLowBitsIs(0x1000, sectorBits);
    ClearLowBitsIs(0x8000, sectorBits);
    ClearLowBitsIs(0x10000, sectorBits);
  }

  lemma FirmwareTableSorted(boot: Pair, app: Pair, parts: Pair)
    requires boot.address == 0x1000 && app.address == 0x10000 && parts.address == 0x8000
    ensures SortByAddress([boot, app, parts]) == [boot, parts, app]
  {
    assert [parts][1..] == [] && [app, parts][1..] == [parts] && [boot, app, parts][1..] == [app, parts];
    assert SortByAddress([parts]) == [parts];
    assert InsertByAddress(app, [parts]) == [parts] + InsertByAddress(app, []);
    assert SortByAddress([app, parts]) == [parts, app];
    assert InsertByAddress(boot, [parts, app]) == [boot, parts, app];
  }

  // ---------------------------------------------------------------------
  // _firmware_download_task

  /** What one `manager.fetch` returned, or the text of what it raised. */
  datatype Fetch = Fetched(data: string) | FetchFailed(error: string)

  /** The archive name: the fetched version without its newlines, then
      `.zip`. */
  function FirmwareName(version: string): string {
    Replace(version, "\n", "") + ".zip"
  }

  /** The archive name keeps every other character of the version, in
      order, and contains no newline. */
  lemma FirmwareNameIs(version: string)
    ensures FirmwareName(version) == Without(version, {'\n'}) + ".zip"
    ensures '\n' !in FirmwareName(version)
    ensures |FirmwareName(version)| >= 4
    ensures FirmwareName(version)[|FirmwareName(version)| - 4..] == ".zip"
  {
    ReplaceCharByNothing(version, '\n');
    WithoutExcludes(version, {'\n'});
    var w := Without(version, {'\n'});
    assert (w + ".zip")[|w|..] == ".zip";
  }

  /** The archive's download address: the version address with each
      `version` replaced by the archive name. */
  function FirmwareUrl(url: string, name: string): string {
    Replace(url, "version", name)
  }

  /** An address without `version` in it is used as it is. */
  lemma FirmwareUrlWithoutPattern(url: string, name: string)
    requires forall i: nat | i <= |url| :: !OccursAt(url, "version", i)
    ensures FirmwareUrl(url, name) == url
  {
    ReplaceAbsent(url, "version", name);
  }

  /** An address with one `version` in it has exactly that part replaced. */
  lemma FirmwareUrlSubstitutes(before: string, after: string, name: string)
    requires forall i: nat | i < |before| :: !OccursAt(before + "version" + after, "version", i)
    requires forall i: nat | i <= |after| :: !OccursAt(after, "version", i)
    ensures FirmwareUrl(before + "version" + after, name) == before + name + after
  {
    ReplaceFirst(before, "version", after, name);
    ReplaceAbsent(after, "version", name);
  }

  /** What the task did: the panel lines it wrote (each `panel_writeln`),
      the addresses it fetched, the archive it stored (path and contents),
      whether it unpacked the archive and whether it called `on_done`. */
  datatype Downloaded = Downloaded(
    lines: seq<string>, fetched: seq<string>, stored: Option<(string, string)>,
    unpacked: bool, onDone: bool)

  const CheckingText := "Check firmware version ... "
  const ReadyText := "firmware is ready\nunpack ..."

  function DownloadingText(url: string): string {
    "Start Download \"" + url + "\""
  }

  /** `_firmware_download_task`. The network, the file system and the zip
      library are its parameters: `version` and `package` are the two
      fetches, `existing` the archives already on disk, `storeError` what
      writing the archive raised, `unzips` whether the archive unpacked,
      and `hasOnDone` whether a callback was given. */
  function DownloadTask(url: string, dir: string, version: Fetch, existing: set<string>,
                        package: Fetch, storeError: Option<string>, unzips: bool, hasOnDone: bool): Downloaded
  {
    match version
    case FetchFailed(e) => Downloaded([CheckingText, e], [url], None, false, false)
    case Fetched(v) =>
      var name := FirmwareName(v);
      var path := JoinPath(dir, name);
      if path in existing then
        Unpacked([CheckingText], [url], None, unzips, hasOnDone)
      else
        var packageUrl := FirmwareUrl(url, name);
        var lines := [CheckingText, DownloadingText(packageUrl)];
        match package
        case FetchFailed(e) => Downloaded(lines + [e], [url, packageUrl], None, false, false)
        case Fetched(bytes) =>
          if storeError.Some? then Downloaded(lines + [storeError.value], [url, packageUrl], None, false, false)
          else Unpacked(lines, [url, packageUrl], Some((path, bytes)), unzips, hasOnDone)
  }

  /** The part after the `try` block: report, unpack, call back. */
  function Unpacked(lines: seq<string>, fetched: seq<string>, stored: Option<(string, string)>,
                    unzips: bool, hasOnDone: bool): Downloaded
  {
    Downloaded(lines + [ReadyText], fetched, stored, true, unzips && hasOnDone)
  }

  /** `on_done` is called exactly when one was given, the version was
      fetched, the archive was on disk or was fetched and stored, and it
      unpacked. */
  lemma DownloadCallsBackOnSuccess(url: string, dir: string, version: Fetch, existing: set<string>,
                                   package: Fetch, storeError: Option<string>, unzips: bool, hasOnDone: bool)
    ensures DownloadTask(url, dir, version, existing, package, storeError, unzips, hasOnDone).onDone
      <==> && hasOnDone && unzips && version.Fetched?
           && (|| JoinPath(dir, FirmwareName(version.data)) in existing
               || (package.Fetched? && storeError.None?))
  {
  }

  /** A failed fetch or store is reported as the last line and ends the
      task before the archive is unpacked. */
  lemma DownloadStopsOnError(url: string, dir: string, version: Fetch, existing: set<string>,
                             package: Fetch, storeError: Option<string>, unzips: bool, hasOnDone: bool)
    ensures var d := DownloadTask(url, dir, version, existing, package, storeError, unzips, hasOnDone);
      var missing := version.Fetched? && JoinPath(dir, FirmwareName(version.data)) !in existing;
      var failed := version.FetchFailed? || (missing && (package.FetchFailed? || storeError.Some?));
      && (failed <==> !d.unpacked)
      && (failed ==>
            && !d.onDone && d.stored.None?
            && d.lines[|d.lines| - 1] == (if version.FetchFailed? then version.error
                                          else if package.FetchFailed? then package.error
                                          else storeError.value))
      && (!failed ==> d.lines[|d.lines| - 1] == ReadyText)
  {
  }

  /** The archive is downloaded, from the substituted address, exactly when
      the version is known and its archive is not on disk; it is stored
      under the directory with its own name. */
  lemma DownloadFetches(url: string, dir: string, version: Fetch, existing: set<string>,
                        package: Fetch, storeError: Option<string>, unzips: bool, hasOnDone: bool)
    ensures var d := DownloadTask(url, dir, version, existing, package, storeError, unzips, hasOnDone);
      && d.fetched[0] == url
      && d.lines[0] == CheckingText
      && (|d.fetched| == 2 <==> version.Fetched? && JoinPath(dir, FirmwareName(version.data)) !in existing)
      && (|d.fetched| == 2 ==>
            d.fetched[1] == FirmwareUrl(url, FirmwareName(version.data))
            && d.lines[1] == DownloadingText(d.fetched[1]))
      && (d.stored.Some? ==>
            && package.Fetched? && d.stored.value == (JoinPath(dir, FirmwareName(version.data)), package.data))
      && |d.fetched| <= 2
  {
  }
}
