/** The request that creates a VM: the options, their check, and the form that is submitted. */
module CreateVM {
  import opened Wrappers
  import opened Numbers
  import Text
  import Proxmox

  datatype DiskSpec = DiskSpec(iface: string, storage: string, size: string, shared: bool, format: string)

  datatype NICSpec = NICSpec(index: nat, bridge: string, model: string, mac: string, firewall: bool, vlan: Int)

  datatype EFIDiskSpec = EFIDiskSpec(storage: string, format: string, preEnrolledKeys: bool)

  datatype CreateOpts = CreateOpts(
    node: string, vmid: Int, name: string, memory: Int, cores: Int, sockets: Int, cpu: string, bios: string,
    machine: string, scsihw: string, ostype: string, tags: seq<string>, startAtBoot: bool, protection: bool,
    efiDisk: Option<EFIDiskSpec>, disks: seq<DiskSpec>, nics: seq<NICSpec>, isoFile: string)

  function LowerChar(c: char): char {
    if 'A' <= c <= 'Z' then (c as int + 32) as char else c
  }

  function Lower(s: string): (r: string)
    ensures |r| == |s|
    ensures forall i :: 0 <= i < |s| ==> r[i] == if 'A' <= s[i] <= 'Z' then (s[i] as int + 32) as char else s[i]
  {
    if s == "" then "" else [LowerChar(s[0])] + Lower(s[1..])
  }

  /** `CreateOpts.Validate`. */
  predicate ValidOpts(o: CreateOpts) {
    o.node != "" && o.vmid > 0 && o.name != "" && (Lower(o.bios) == "ovmf" ==> o.efiDisk.Some?) &&
    (forall d :: d in o.disks ==> d.iface != "" && d.storage != "" && d.size != "") &&
    (forall n :: n in o.nics ==> n.bridge != "")
  }

  // --- sizes -----------------------------------------------------------------------

  /** The number of characters up to and with the last digit. */
  function NumberLen(s: string): (n: nat)
    ensures n <= |s|
  {
    if s == "" || IsDigit(s[|s| - 1]) then |s| else NumberLen(s[..|s| - 1])
  }

  /** The capitals that matter here; the dotless i also has the capital I. */
  function UpperChar(c: char): char {
    if 'a' <= c <= 'z' then (c as int - 32) as char else if c == '\U{0131}' then 'I' else c
  }

  function Upper(s: string): string {
    if s == "" then "" else [UpperChar(s[0])] + Upper(s[1..])
  }

  datatype Unit = GiB | TiB | MiB | NoUnit

  function UnitOf(suffix: string): Unit {
    var u := Upper(Text.TrimSpace(suffix));
    if u in {"G", "GB", "GIB"} then GiB
    else if u in {"T", "TB", "TIB"} then TiB
    else if u in {"M", "MB", "MIB"} then MiB
    else NoUnit
  }

  /** A number and its unit; `NoUnit` also when there is no digit or nothing after the last one. */
  function SplitSize(s: string): (string, Unit) {
    var n := NumberLen(s);
    if n == 0 || n == |s| then (s, NoUnit) else (s[..n], UnitOf(s[n..]))
  }

  function NormalizedSize(s: string): string {
    var (num, unit) := SplitSize(s);
    var n := Atoi(num);
    match unit
    case GiB => num
    case TiB => if n.Some? then Itoa(Wrap(n.value * 1024)) else s
    case MiB => if n.Some? && n.value % 1024 == 0 then Itoa(n.value / 1024) else s
    case NoUnit => s
  }

  /** What the size says, in MiB. */
  function MiBOf(n: int, unit: Unit): int {
    match unit
    case GiB => n * 1024
    case TiB => n * 1024 * 1024
    case _ => n
  }

  /** A whole number with a unit is submitted as the same quantity in GiB exactly when that number of GiB fits
      the integer type; whole MiB that are not whole GiB are submitted as they were written. */
  lemma SizeKeptIff(s: string, n: int)
    requires Atoi(SplitSize(s).0) == Some(n) && SplitSize(s).1 != NoUnit
    ensures var unit, out := SplitSize(s).1, NormalizedSize(s);
            if unit == MiB && n % 1024 != 0 then out == s
            else
              Atoi(out).Some? &&
              (Atoi(out).value * 1024 == MiBOf(n, unit) <==> (unit == TiB ==> Fits(n * 1024)))
  {
    AtoiFits(SplitSize(s).0);
    match SplitSize(s).1
    case GiB =>
    case TiB => AtoiInvertsItoa(Wrap(n * 1024));
    case MiB => if n % 1024 == 0 { AtoiInvertsItoa(n / 1024); }
    case NoUnit =>
  }

  lemma AtoiFits(s: string)
    ensures Atoi(s).Some? ==> Fits(Atoi(s).value)
  {
  }

  lemma {:induction false} NumberLenSkips(num: string, suffix: string)
    requires num != "" && IsDigit(num[|num| - 1])
    requires forall c :: c in suffix ==> !IsDigit(c)
    ensures NumberLen(num + suffix) == |num|
    decreases |suffix|
  {
    if suffix == "" {
      assert num + suffix == num;
    } else {
      var s, shorter := num + suffix, suffix[..|suffix| - 1];
      assert s[..|s| - 1] == num + shorter && s[|s| - 1] in suffix;
      NumberLenSkips(num, shorter);
    }
  }

  lemma DigitsOnlyAtEnd(n: int)
    ensures Itoa(n) != "" && IsDigit(Itoa(n)[|Itoa(n)| - 1])
  {
  }

  lemma UpperT()
    ensures Upper("T") == "T"
  {
    assert "T"[1..] == "" && Upper("") == "" && UpperChar('T') == 'T';
    assert Upper("T") == ['T'] + Upper("T"[1..]);
    assert ['T'] + "" == "T";
  }

  lemma SplitTiB(n: int)
    ensures SplitSize(Itoa(n) + "T") == (Itoa(n), TiB)
  {
    var num := Itoa(n);
    var s := num + "T";
    DigitsOnlyAtEnd(n);
    NumberLenSkips(num, "T");
    assert s[..|num|] == num && s[|num|..] == "T";
    assert Text.TrimLeft("T") == "T" && Text.TrimRight("T") == "T";
    assert Text.TrimSpace("T") == "T";
    UpperT();
  }

  lemma WrappedToZero(s: string, n: int)
    requires SplitSize(s).1 == TiB && Atoi(SplitSize(s).0) == Some(n) && Wrap(n * 1024) == 0
    ensures NormalizedSize(s) == "0"
  {
    assert Digits(0) == [DigitOf(0)];
  }

  /** What a number followed by a unit is submitted as: in GiB, and as it was written when no unit or no whole number of
      GiB is meant. */
  lemma SizeMeans(n: int, suffix: string)
    requires Fits(n) && suffix != "" && forall c :: c in suffix ==> !IsDigit(c)
    ensures var u, out := Upper(Text.TrimSpace(suffix)), NormalizedSize(Itoa(n) + suffix);
            if u in {"G", "GB", "GIB"} then out == Itoa(n)
            else if u in {"T", "TB", "TIB"} then out == Itoa(Wrap(n * 1024))
            else if u in {"M", "MB", "MIB"} && n % 1024 == 0 then out == Itoa(n / 1024)
            else out == Itoa(n) + suffix
    ensures NormalizedSize(Itoa(n)) == Itoa(n)
  {
    SplitNumber(n, suffix);
    AtoiInvertsItoa(n);
    NormalizedOf(Itoa(n) + suffix, Itoa(n), UnitOf(suffix), n);
    UnitMeans(suffix, Upper(Text.TrimSpace(suffix)));
  }

  lemma NormalizedOf(s: string, num: string, unit: Unit, n: int)
    requires SplitSize(s) == (num, unit) && Atoi(num) == Some(n)
    ensures NormalizedSize(s) ==
              match unit
              case GiB => num
              case TiB => Itoa(Wrap(n * 1024))
              case MiB => if n % 1024 == 0 then Itoa(n / 1024) else s
              case NoUnit => s
  {
  }

  lemma UnitMeans(suffix: string, u: string)
    requires u == Upper(Text.TrimSpace(suffix))
    ensures UnitOf(suffix) == if u in {"G", "GB", "GIB"} then GiB else if u in {"T", "TB", "TIB"} then TiB
                              else if u in {"M", "MB", "MIB"} then MiB else NoUnit
  {
  }

  /** Rewriting a size brings no new separators in. */
  lemma SizePlain(s: string, c: char)
    requires c !in s && !IsDigit(c) && c != '-'
    ensures c !in NormalizedSize(s)
  {
    var (num, unit) := SplitSize(s);
    var n := Atoi(num);
    if n.Some? {
      NumberPlain(Wrap(n.value * 1024), c);
      NumberPlain(n.value / 1024, c);
    }
  }

  lemma NumberPlain(n: int, c: char)
    requires !IsDigit(c) && c != '-'
    ensures c !in Itoa(n)
  {
    Numbers.DigitsAre(if n < 0 then -n else n);
  }

  lemma SplitNumber(n: int, suffix: string)
    requires suffix != "" && forall c :: c in suffix ==> !IsDigit(c)
    ensures SplitSize(Itoa(n) + suffix) == (Itoa(n), UnitOf(suffix)) && SplitSize(Itoa(n)).1 == NoUnit
  {
    var num := Itoa(n);
    var s := num + suffix;
    DigitsOnlyAtEnd(n);
    NumberLenSkips(num, suffix);
    assert s[..|num|] == num && s[|num|..] == suffix;
  }

  lemma {:induction false} UpperAt(s: string, i: nat)
    requires i < |s|
    ensures |Upper(s)| == |s|
    ensures Upper(s)[i] == if 'a' <= s[i] <= 'z' then (s[i] as int - 32) as char else if s[i] == '\U{0131}' then 'I' else s[i]
  {
    if |s| > 1 { UpperAt(s[1..], if i > 0 then i - 1 else 0); } else { assert s[1..] == "" && Upper(s[1..]) == ""; }
  }

  /** Every multiple of 2^54 TiB is submitted as no size at all. */
  lemma SizeLost(n: int)
    requires Fits(n) && n % 0x40_0000_0000_0000 == 0
    ensures NormalizedSize(Itoa(n) + "T") == "0"
  {
    var q := n / 0x40_0000_0000_0000;
    assert n * 1024 - MIN_INT == q * 0x1_0000_0000_0000_0000 + 0x8000_0000_0000_0000;
    assert (n * 1024 - MIN_INT) % 0x1_0000_0000_0000_0000 == 0x8000_0000_0000_0000;
    SplitTiB(n);
    AtoiInvertsItoa(n);
    WrappedToZero(Itoa(n) + "T", n);
  }

  /** The loop of `normalizeSizeGiB`. */
  method NormalizeSizeGiB(s: string) returns (out: string)
    ensures out == NormalizedSize(s)
  {
    var end := |s|;
    assert s[..end] == s;
    while end > 0 && !IsDigit(s[end - 1])
      invariant 0 <= end <= |s|
      invariant NumberLen(s) == NumberLen(s[..end])
    {
      assert s[..end][..end - 1] == s[..end - 1];
      end := end - 1;
    }
    if end == 0 || end == |s| { return s; }
    var num := s[..end];
    var n := Atoi(num);
    match UnitOf(s[end..]) {
      case GiB => return num;
      case TiB => if n.Some? { return Itoa(Wrap(n.value * 1024)); }
      case MiB => if n.Some? && n.value % 1024 == 0 { return Itoa(n.value / 1024); }
      case NoUnit =>
    }
    return s;
  }

  // --- the form --------------------------------------------------------------------

  function DiskString(d: DiskSpec): string {
    d.storage + ":" + NormalizedSize(d.size)
    + (if d.format == "" then "" else ",format=" + d.format)
    + (if d.shared then ",shared=1" else "")
  }

  function NICString(n: NICSpec): string {
    var model := if n.model == "" then "virtio" else n.model;
    (if n.mac != "" && Lower(n.mac) != "auto" then model + "=" + n.mac else model)
    + ",bridge=" + n.bridge
    + (if n.firewall then ",firewall=1" else "")
    + (if n.vlan > 0 then ",tag=" + Itoa(n.vlan) else "")
  }

  function EFIDiskString(e: EFIDiskSpec): string {
    e.storage + ":1" + (if e.format == "" then "" else ",format=" + e.format)
    + ",efitype=4m,pre-enrolled-keys=" + (if e.preEnrolledKeys then "1" else "0")
  }

  // --- reading the entries back ----------------------------------------------------------

  /** Options behind the first part, each behind a comma. */
  function Listed(options: seq<string>): string {
    if options == [] then "" else "," + options[0] + Listed(options[1..])
  }

  lemma {:induction false} SplitListed(first: string, options: seq<string>)
    requires ',' !in first && Text.NoneHas(options, ',')
    ensures Text.Split(first + Listed(options), ',') == [first] + options
    decreases |options|
  {
    if options == [] {
      Text.SplitFirst(first, "", ',');
      assert first + Listed(options) == first && [first] + options == [first];
    } else {
      SplitListed(options[0], options[1..]);
      var rest := options[0] + Listed(options[1..]);
      Text.SplitFirst(first, rest, ',');
      assert first + Listed(options) == first + [','] + rest;
      assert [options[0]] + options[1..] == options;
    }
  }

  /** The value of the first option with this key, empty without one. */
  function OptionOf(options: seq<string>, key: string): string {
    if options == [] then "" else if key <= options[0] then options[0][|key|..] else OptionOf(options[1..], key)
  }

  /** A pair with a separator between, the second part empty without one. */
  function Pair(s: string, sep: char): (string, string) {
    var parts := Text.Split(s, sep);
    (parts[0], if |parts| > 1 then parts[1] else "")
  }

  lemma PairOf(a: string, b: string, sep: char)
    requires sep !in a && sep !in b
    ensures Pair(a + [sep] + b, sep) == (a, b) && Pair(a, sep) == (a, "")
  {
    Text.SplitFirst(a, b, sep);
    Text.SplitFirst(b, "", sep);
  }

  datatype DiskEntry = DiskEntry(storage: string, size: string, format: string, shared: bool)

  /** A disk's entry as its parts: `storage:size`, then the options. */
  function ReadDisk(entry: string): DiskEntry {
    var parts := Text.Split(entry, ',');
    var (storage, size) := Pair(parts[0], ':');
    DiskEntry(storage, size, OptionOf(parts[1..], "format="), "shared=1" in parts[1..])
  }

  /** A disk's entry reads back as the disk. */
  lemma DiskReadsBack(d: DiskSpec)
    requires ',' !in d.storage && ':' !in d.storage && ',' !in d.format
    requires ',' !in NormalizedSize(d.size) && ':' !in NormalizedSize(d.size)
    ensures ReadDisk(DiskString(d)) == DiskEntry(d.storage, NormalizedSize(d.size), d.format, d.shared)
  {
    var size := NormalizedSize(d.size);
    var first, options := d.storage + [':'] + size, DiskOptions(d);
    DiskListed(d);
    SplitListed(first, options);
    PairOf(d.storage, size, ':');
    assert ([first] + options)[1..] == options;
    DiskOptionsRead(d.format, d.shared);
  }

  function DiskOptions(d: DiskSpec): seq<string> {
    Optional(d.format != "", "format=" + d.format) + Optional(d.shared, "shared=1")
  }

  lemma DiskListed(d: DiskSpec)
    requires ',' !in d.format
    ensures DiskString(d) == d.storage + [':'] + NormalizedSize(d.size) + Listed(DiskOptions(d)) && Text.NoneHas(DiskOptions(d), ',')
  {
    var f, shared := Optional(d.format != "", "format=" + d.format), Optional(d.shared, "shared=1");
    OptionalListed(d.format != "", "format=" + d.format);
    OptionalListed(d.shared, "shared=1");
    ListedBoth(f, shared);
    NoneHasBoth(f, shared);
    DiskRegroup(d.storage, NormalizedSize(d.size), Listed(f), Listed(shared));
    PrefixedDisk(d.format);
  }

  lemma PrefixedDisk(format: string)
    ensures "," + ("format=" + format) == ",format=" + format && "," + "shared=1" == ",shared=1"
  {
  }

  lemma DiskRegroup(storage: string, size: string, format: string, shared: string)
    ensures storage + ":" + size + format + shared == storage + [':'] + size + (format + shared)
  {
  }

  lemma DiskOptionsRead(format: string, shared: bool)
    ensures var options := Optional(format != "", "format=" + format) + Optional(shared, "shared=1");
            OptionOf(options, "format=") == format && ("shared=1" in options <==> shared)
  {
    var f, last := "format=" + format, Optional(shared, "shared=1");
    assert f[0] == 'f' && "shared=1"[0] == 's' && "format="[0] == 'f';
    OptionHere(f, "format=", format, last);
    OptionLater("shared=1", "format=", []);
    assert ["shared=1"] + [] == ["shared=1"] && [] + last == last;
  }

  datatype NICEntry = NICEntry(model: string, mac: string, bridge: string, firewall: bool, vlan: Option<Int>)

  /** A NIC's entry as its parts: `model` or `model=mac`, then the options. */
  function ReadNIC(entry: string): NICEntry {
    var parts := Text.Split(entry, ',');
    var (model, mac) := Pair(parts[0], '=');
    NICEntry(model, mac, OptionOf(parts[1..], "bridge="), "firewall=1" in parts[1..], Atoi(OptionOf(parts[1..], "tag=")))
  }

  /** A NIC's entry reads back as the NIC: an empty model is virtio, and `auto` is no address. */
  lemma NICReadsBack(n: NICSpec)
    requires forall s :: s in {n.model, n.mac, n.bridge} ==> ',' !in s && '=' !in s
    ensures ReadNIC(NICString(n)) == NICEntry(
              if n.model == "" then "virtio" else n.model, if Lower(n.mac) == "auto" then "" else n.mac,
              n.bridge, n.firewall, if n.vlan > 0 then Some(n.vlan) else None)
  {
    var model := if n.model == "" then "virtio" else n.model;
    var mac := if n.mac != "" && Lower(n.mac) != "auto" then n.mac else "";
    var first, options := if mac != "" then model + ['='] + mac else model, NICOptions(n.bridge, n.firewall, n.vlan);
    NICSplit(n, first, options);
    PairOf(model, mac, '=');
    ReadNICParts(NICString(n), first, options);
    NICOptionsRead(n.bridge, n.firewall, n.vlan);
  }

  lemma NICSplit(n: NICSpec, first: string, options: seq<string>)
    requires ',' !in first && ',' !in n.bridge && options == NICOptions(n.bridge, n.firewall, n.vlan)
    requires first == (if n.mac != "" && Lower(n.mac) != "auto" then (if n.model == "" then "virtio" else n.model) + "=" + n.mac
                       else if n.model == "" then "virtio" else n.model)
    ensures Text.Split(NICString(n), ',') == [first] + options
  {
    NICListed(n, first);
    SplitListed(first, options);
  }

  lemma ReadNICParts(entry: string, first: string, options: seq<string>)
    requires Text.Split(entry, ',') == [first] + options
    ensures ReadNIC(entry) == NICEntry(Pair(first, '=').0, Pair(first, '=').1, OptionOf(options, "bridge="),
                                       "firewall=1" in options, Atoi(OptionOf(options, "tag=")))
  {
    assert ([first] + options)[1..] == options;
  }

  function NICOptions(bridge: string, firewall: bool, vlan: Int): seq<string> {
    ["bridge=" + bridge] + (Optional(firewall, "firewall=1") + Optional(vlan > 0, "tag=" + Itoa(vlan)))
  }

  lemma NICListed(n: NICSpec, first: string)
    requires ',' !in n.bridge
    requires first == (if n.mac != "" && Lower(n.mac) != "auto" then (if n.model == "" then "virtio" else n.model) + "=" + n.mac
                       else if n.model == "" then "virtio" else n.model)
    ensures NICString(n) == first + Listed(NICOptions(n.bridge, n.firewall, n.vlan))
    ensures Text.NoneHas(NICOptions(n.bridge, n.firewall, n.vlan), ',')
  {
    NICOptionsListed(n.bridge, n.firewall, n.vlan);
    Regroup(first, n.bridge, if n.firewall then ",firewall=1" else "", if n.vlan > 0 then ",tag=" + Itoa(n.vlan) else "");
  }

  lemma Regroup(first: string, bridge: string, firewall: string, tag: string)
    ensures first + ",bridge=" + bridge + firewall + tag == first + (("," + ("bridge=" + bridge)) + (firewall + tag))
  {
  }

  function Optional(wanted: bool, option: string): seq<string> { if wanted then [option] else [] }

  lemma OptionalListed(wanted: bool, option: string)
    requires ',' !in option
    ensures Listed(Optional(wanted, option)) == (if wanted then "," + option else "") && Text.NoneHas(Optional(wanted, option), ',')
  {
    ListedOne(option);
  }

  lemma NICOptionsListed(bridge: string, firewall: bool, vlan: Int)
    requires ',' !in bridge
    ensures Listed(NICOptions(bridge, firewall, vlan))
         == ("," + ("bridge=" + bridge)) + ((if firewall then ",firewall=1" else "") + (if vlan > 0 then ",tag=" + Itoa(vlan) else ""))
    ensures Text.NoneHas(NICOptions(bridge, firewall, vlan), ',')
  {
    var b, f, t := "bridge=" + bridge, Optional(firewall, "firewall=1"), Optional(vlan > 0, "tag=" + Itoa(vlan));
    NoComma(vlan);
    OptionalListed(firewall, "firewall=1");
    OptionalListed(vlan > 0, "tag=" + Itoa(vlan));
    ListedOne(b);
    AllListed(b, f, t);
    Prefixed(Itoa(vlan));
  }

  lemma Prefixed(number: string)
    ensures "," + ("tag=" + number) == ",tag=" + number && "," + "firewall=1" == ",firewall=1"
  {
  }

  lemma AllListed(b: string, f: seq<string>, t: seq<string>)
    requires ',' !in b && Text.NoneHas(f, ',') && Text.NoneHas(t, ',')
    ensures Listed([b] + (f + t)) == "," + b + (Listed(f) + Listed(t)) && Text.NoneHas([b] + (f + t), ',')
  {
    ListedOne(b);
    ListedBoth(f, t);
    ListedBoth([b], f + t);
    NoneHasBoth(f, t);
    NoneHasBoth([b], f + t);
  }

  lemma NoComma(n: int)
    ensures ',' !in Itoa(n) && ':' !in Itoa(n) && '=' !in Itoa(n)
  {
    Numbers.DigitsAre(if n < 0 then -n else n);
  }

  lemma ListedOne(option: string)
    ensures Listed([option]) == "," + option && Listed([]) == ""
    ensures ',' !in option ==> Text.NoneHas([option], ',')
  {
    assert [option][1..] == [];
  }

  lemma {:induction false} ListedBoth(a: seq<string>, b: seq<string>)
    ensures Listed(a + b) == Listed(a) + Listed(b)
  {
    if a == [] {
      assert a + b == b;
    } else {
      ListedBoth(a[1..], b);
      assert (a + b)[0] == a[0] && (a + b)[1..] == a[1..] + b;
    }
  }

  lemma {:induction false} NoneHasBoth(a: seq<string>, b: seq<string>)
    requires Text.NoneHas(a, ',') && Text.NoneHas(b, ',')
    ensures Text.NoneHas(a + b, ',')
  {
    if a == [] {
      assert a + b == b;
    } else {
      NoneHasBoth(a[1..], b);
      assert (a + b)[0] == a[0] && (a + b)[1..] == a[1..] + b;
    }
  }

  lemma OptionHere(option: string, key: string, value: string, rest: seq<string>)
    requires option == key + value
    ensures OptionOf([option] + rest, key) == value
  {
    assert ([option] + rest)[0] == option && option[|key|..] == value;
  }

  lemma OptionLater(option: string, key: string, rest: seq<string>)
    requires option != "" && key != "" && option[0] != key[0]
    ensures OptionOf([option] + rest, key) == OptionOf(rest, key)
  {
    assert ([option] + rest)[1..] == rest;
  }

  lemma NICOptionsRead(bridge: string, firewall: bool, vlan: Int)
    ensures var options := NICOptions(bridge, firewall, vlan);
            && OptionOf(options, "bridge=") == bridge && ("firewall=1" in options <==> firewall)
            && Atoi(OptionOf(options, "tag=")) == if vlan > 0 then Some(vlan) else None
  {
    var b, f, t := "bridge=" + bridge, Optional(firewall, "firewall=1"), Optional(vlan > 0, "tag=" + Itoa(vlan));
    assert b[0] == 'b' && "firewall=1"[0] == 'f' && "tag="[0] == 't' && ("tag=" + Itoa(vlan))[0] == 't';
    OptionHere(b, "bridge=", bridge, f + t);
    OptionLater(b, "tag=", f + t);
    if firewall { OptionLater("firewall=1", "tag=", t); } else { assert f + t == t; }
    OptionHere("tag=" + Itoa(vlan), "tag=", Itoa(vlan), []);
    assert ["tag=" + Itoa(vlan)] + [] == ["tag=" + Itoa(vlan)];
    AtoiInvertsItoa(vlan);
  }

  datatype EFIDiskEntry = EFIDiskEntry(storage: string, size: string, format: string, kind: string, preEnrolledKeys: string)

  function ReadEFIDisk(entry: string): EFIDiskEntry {
    var parts := Text.Split(entry, ',');
    var (storage, size) := Pair(parts[0], ':');
    EFIDiskEntry(storage, size, OptionOf(parts[1..], "format="), OptionOf(parts[1..], "efitype="), OptionOf(parts[1..], "pre-enrolled-keys="))
  }

  /** The EFI disk's entry reads back as the EFI disk, of size 1 and type 4m. */
  lemma EFIDiskReadsBack(e: EFIDiskSpec)
    requires ',' !in e.storage && ':' !in e.storage && ',' !in e.format
    ensures ReadEFIDisk(EFIDiskString(e)) == EFIDiskEntry(e.storage, "1", e.format, "4m", if e.preEnrolledKeys then "1" else "0")
  {
    var format := if e.format == "" then [] else ["format=" + e.format];
    var keys := "pre-enrolled-keys=" + (if e.preEnrolledKeys then "1" else "0");
    var first := e.storage + [':'] + "1";
    ListedOne("format=" + e.format);
    ListedOne(keys);
    ListedOne("efitype=4m");
    ListedBoth(["efitype=4m"], [keys]);
    ListedBoth(format, ["efitype=4m"] + [keys]);
    NoneHasBoth(["efitype=4m"], [keys]);
    NoneHasBoth(format, ["efitype=4m"] + [keys]);
    EFIDiskListed(e, first, format, keys);
    var options := format + (["efitype=4m"] + [keys]);
    SplitListed(first, options);
    PairOf(e.storage, "1", ':');
    assert ([first] + options)[1..] == options;
    EFIOptionsRead(e.format, if e.preEnrolledKeys then "1" else "0");
  }

  lemma EFIDiskListed(e: EFIDiskSpec, first: string, format: seq<string>, keys: string)
    requires first == e.storage + [':'] + "1" && format == (if e.format == "" then [] else ["format=" + e.format])
    requires keys == "pre-enrolled-keys=" + (if e.preEnrolledKeys then "1" else "0")
    requires Listed(format) == (if e.format == "" then "" else "," + ("format=" + e.format))
    ensures EFIDiskString(e) == first + (Listed(format) + ("," + "efitype=4m" + ("," + keys)))
  {
    var flag := if e.preEnrolledKeys then "1" else "0";
    PrefixedEFI(e.storage, e.format, flag);
    RegroupEFI(first, Listed(format), ",efitype=4m,pre-enrolled-keys=", flag);
  }

  lemma PrefixedEFI(storage: string, format: string, flag: string)
    ensures ",format=" + format == "," + ("format=" + format) && storage + [':'] + "1" == storage + ":1"
    ensures ",efitype=4m,pre-enrolled-keys=" + flag == "," + "efitype=4m" + ("," + ("pre-enrolled-keys=" + flag))
  {
  }

  lemma RegroupEFI(first: string, format: string, kind: string, flag: string)
    ensures first + format + kind + flag == first + (format + (kind + flag))
  {
  }

  lemma EFIOptionsRead(format: string, flag: string)
    ensures var options := (if format == "" then [] else ["format=" + format]) + (["efitype=4m"] + ["pre-enrolled-keys=" + flag]);
            OptionOf(options, "format=") == format && OptionOf(options, "efitype=") == "4m" && OptionOf(options, "pre-enrolled-keys=") == flag
  {
    var f, t, k := "format=" + format, "efitype=4m", "pre-enrolled-keys=" + flag;
    assert f[0] == 'f' && t[0] == 'e' && k[0] == 'p' && "format="[0] == 'f' && "efitype="[0] == 'e' && "pre-enrolled-keys="[0] == 'p';
    assert [k] + [] == [k] && t == "efitype=" + "4m";
    OptionHere(f, "format=", format, [t] + [k]);
    OptionLater(f, "efitype=", [t] + [k]);
    OptionLater(f, "pre-enrolled-keys=", [t] + [k]);
    OptionHere(t, "efitype=", "4m", [k]);
    OptionLater(t, "pre-enrolled-keys=", [k]);
    OptionLater(t, "format=", [k]);
    OptionHere(k, "pre-enrolled-keys=", flag, []);
    OptionLater(k, "format=", []);
    if format == "" { assert [] + ([t] + [k]) == [t] + [k]; }
  }

  function NICKey(index: nat): string { "net" + Itoa(index) }

  /** `form.Set` under a condition. */
  function SetIf<K>(form: map<K, string>, wanted: bool, key: K, value: string): map<K, string> {
    if wanted then form[key := value] else form
  }

  /** Neither a disk's nor an interface's key, nor the medium's. */
  predicate IsOtherKey(k: string) { !IsDiskKey(k) && !IsNICKey(k) && k != "ide2" }

  lemma OtherKey(k: string)
    requires |k| >= 2 && k[0] != 'i' && (k[0] == 'n' ==> k[1] != 'e') && (k[0] == 's' && k[1] == 'c' && |k| >= 5 ==> !IsDigit(k[4]))
    ensures IsOtherKey(k)
  {
    assert |k| >= 4 && k[..4] == "scsi" ==> k[0] == k[..4][0] && k[1] == k[..4][1];
    assert |k| >= 3 && k[..3] == "net" ==> k[0] == k[..3][0] && k[1] == k[..3][1];
  }

  /** The keys of the request that are neither disks nor interfaces nor the medium. */
  datatype Field =
    | VMID | Name | Memory | Cores | Sockets | CPU | BIOS | Machine | SCSIHW | OSType | Tags | Agent | OnBoot | Protection | EFIDisk

  function KeyOf(f: Field): string {
    match f
    case VMID => "vmid"
    case Name => "name"
    case Memory => "memory"
    case Cores => "cores"
    case Sockets => "sockets"
    case CPU => "cpu"
    case BIOS => "bios"
    case Machine => "machine"
    case SCSIHW => "scsihw"
    case OSType => "ostype"
    case Tags => "tags"
    case Agent => "agent"
    case OnBoot => "onboot"
    case Protection => "protection"
    case EFIDisk => "efidisk0"
  }

  /** Length and second character tell the keys apart. */
  function Fingerprint(f: Field): (nat, char) {
    match f
    case VMID => (4, 'm')
    case Name => (4, 'a')
    case Memory => (6, 'e')
    case Cores => (5, 'o')
    case Sockets => (7, 'o')
    case CPU => (3, 'p')
    case BIOS => (4, 'i')
    case Machine => (7, 'a')
    case SCSIHW => (6, 'c')
    case OSType => (6, 's')
    case Tags => (4, 't')
    case Agent => (5, 'g')
    case OnBoot => (6, 'n')
    case Protection => (10, 'r')
    case EFIDisk => (8, 'f')
  }

  lemma FieldKey(f: Field)
    ensures var k := KeyOf(f); |k| >= 2 && (f == Tags || Fingerprint(f) == (|k|, k[1])) && (f == Tags ==> k[0] == 't')
    ensures IsOtherKey(KeyOf(f))
  {
    OtherKey(KeyOf(f));
  }

  lemma KeysInjective(f: Field, g: Field)
    requires KeyOf(f) == KeyOf(g)
    ensures f == g
  {
    FieldKey(f);
    FieldKey(g);
  }

  function Sizing(o: CreateOpts): map<Field, string> {
    var f := map[VMID := Itoa(o.vmid), Name := o.name];
    var f := SetIf(f, o.memory > 0, Memory, Itoa(o.memory));
    var f := SetIf(f, o.cores > 0, Cores, Itoa(o.cores));
    var f := SetIf(f, o.sockets > 0, Sockets, Itoa(o.sockets));
    f[CPU := if o.cpu != "" then o.cpu else "host"]
  }

  function Hardware(f: map<Field, string>, o: CreateOpts): map<Field, string> {
    var f := SetIf(f, o.bios != "", BIOS, o.bios);
    var f := SetIf(f, o.machine != "", Machine, o.machine);
    var f := SetIf(f, o.scsihw != "", SCSIHW, o.scsihw);
    SetIf(f, o.ostype != "", OSType, o.ostype)
  }

  function Handling(f: map<Field, string>, o: CreateOpts): map<Field, string> {
    var f := SetIf(f, o.tags != [], Tags, Text.Join(o.tags, ','));
    var f := f[Agent := "1"];
    var f := SetIf(f, o.startAtBoot, OnBoot, "1");
    var f := SetIf(f, o.protection, Protection, "1");
    if o.efiDisk.Some? then f[EFIDisk := EFIDiskString(o.efiDisk.value)] else f
  }

  /** The fields with their values; absent options have none. */
  function FieldsOf(o: CreateOpts): map<Field, string> { Handling(Hardware(Sizing(o), o), o) }

  lemma AllKeysInjective()
    ensures forall f, g :: KeyOf(f) == KeyOf(g) ==> f == g
  {
    forall f, g | KeyOf(f) == KeyOf(g) ensures f == g { KeysInjective(f, g); }
  }

  /** The fields under their keys. */
  function Keyed(fields: map<Field, string>): (form: Proxmox.Conf)
    ensures forall f :: f in fields <==> KeyOf(f) in form
    ensures forall f :: f in fields ==> form[KeyOf(f)] == fields[f]
    ensures forall k :: k in form ==> exists f :: f in fields && KeyOf(f) == k
  {
    AllKeysInjective();
    map f | f in fields :: KeyOf(f) := fields[f]
  }

  /** Everything but the disks, the interfaces and the installation medium. */
  function BaseForm(o: CreateOpts): Proxmox.Conf { Keyed(FieldsOf(o)) }

  function AddDisks(form: Proxmox.Conf, disks: seq<DiskSpec>): Proxmox.Conf
    decreases |disks|
  {
    if disks == [] then form else AddDisks(form[disks[0].iface := DiskString(disks[0])], disks[1..])
  }

  function AddNICs(form: Proxmox.Conf, nics: seq<NICSpec>): Proxmox.Conf
    decreases |nics|
  {
    if nics == [] then form else AddNICs(form[NICKey(nics[0].index) := NICString(nics[0])], nics[1..])
  }

  function FormOf(o: CreateOpts): Proxmox.Conf {
    SetIf(AddNICs(AddDisks(BaseForm(o), o.disks), o.nics), o.isoFile != "", "ide2", o.isoFile + ",media=cdrom")
  }

  /** What `CreateVM` submits; `None` when the options fail their check and nothing is submitted. */
  method CreateForm(o: CreateOpts) returns (form: Option<Proxmox.Conf>)
    ensures form == if ValidOpts(o) then Some(FormOf(o)) else None
  {
    if !ValidOpts(o) { return None; }
    var f := BaseForm(o);
    for i := 0 to |o.disks|
      invariant AddDisks(BaseForm(o), o.disks) == AddDisks(f, o.disks[i..])
    {
      assert o.disks[i..][1..] == o.disks[i + 1..];
      f := f[o.disks[i].iface := DiskString(o.disks[i])];
    }
    for i := 0 to |o.nics|
      invariant AddNICs(AddDisks(BaseForm(o), o.disks), o.nics) == AddNICs(f, o.nics[i..])
    {
      assert o.nics[i..][1..] == o.nics[i + 1..];
      f := f[NICKey(o.nics[i].index) := NICString(o.nics[i])];
    }
    if o.isoFile != "" { f := f["ide2" := o.isoFile + ",media=cdrom"]; }
    form := Some(f);
  }

  // --- what the form holds -------------------------------------------------------------

  /** A disk's key is a bus and a digit; a NIC's key is `net` and a number. */
  predicate IsDiskKey(k: string) { |k| >= 5 && k[..4] == "scsi" && IsDigit(k[4]) }

  predicate IsNICKey(k: string) { |k| >= 4 && k[..3] == "net" && IsDigit(k[3]) }

  predicate DiskKeysOnly(disks: seq<DiskSpec>) {
    forall d :: d in disks ==> IsDiskKey(d.iface)
  }

  function Interfaces(disks: seq<DiskSpec>): set<string> {
    set d | d in disks :: d.iface
  }

  predicate DistinctInterfaces(disks: seq<DiskSpec>) {
    forall i, j :: 0 <= i < j < |disks| ==> disks[i].iface != disks[j].iface
  }

  predicate DistinctIndexes(nics: seq<NICSpec>) {
    forall i, j :: 0 <= i < j < |nics| ==> nics[i].index != nics[j].index
  }

  function DiskEntries(form: Proxmox.Conf): set<string> {
    set k | k in form && IsDiskKey(k)
  }

  lemma NICKeyShape(index: nat)
    ensures IsNICKey(NICKey(index))
  {
    ReadDigits(index);
  }

  lemma NICKeyInjective(i: nat, j: nat)
    requires NICKey(i) == NICKey(j)
    ensures i == j
  {
    assert NICKey(i)[3..] == Itoa(i) && NICKey(j)[3..] == Itoa(j);
    DigitsInjective(i, j);
  }

  lemma {:induction false} AddDisksKeys(form: Proxmox.Conf, disks: seq<DiskSpec>, k: string)
    ensures k in AddDisks(form, disks) <==> k in form || k in Interfaces(disks)
    ensures k !in Interfaces(disks) && k in form ==> AddDisks(form, disks)[k] == form[k]
    decreases |disks|
  {
    if disks != [] {
      assert forall d :: d in disks <==> d == disks[0] || d in disks[1..];
      AddDisksKeys(form[disks[0].iface := DiskString(disks[0])], disks[1..], k);
    }
  }

  /** The last of the disks with an interface is the one in the form. */
  lemma {:induction false} AddDisksLast(form: Proxmox.Conf, disks: seq<DiskSpec>, i: nat)
    requires i < |disks| && forall j :: i < j < |disks| ==> disks[j].iface != disks[i].iface
    ensures disks[i].iface in AddDisks(form, disks) && AddDisks(form, disks)[disks[i].iface] == DiskString(disks[i])
    decreases |disks|
  {
    var f := form[disks[0].iface := DiskString(disks[0])];
    if i == 0 {
      forall d | d in disks[1..] ensures d.iface != disks[0].iface {
        var j :| 0 <= j < |disks[1..]| && disks[1..][j] == d;
        assert disks[j + 1] == d;
      }
      AddDisksKeys(f, disks[1..], disks[0].iface);
    } else {
      assert disks[1..][i - 1] == disks[i];
      forall j | i - 1 < j < |disks[1..]| ensures disks[1..][j].iface != disks[1..][i - 1].iface {
        assert disks[1..][j] == disks[j + 1];
      }
      AddDisksLast(f, disks[1..], i - 1);
    }
  }

  lemma {:induction false} AddNICsKeys(form: Proxmox.Conf, nics: seq<NICSpec>, k: string)
    requires forall n :: n in nics ==> NICKey(n.index) != k
    ensures (k in AddNICs(form, nics) <==> k in form) && (k in form ==> AddNICs(form, nics)[k] == form[k])
    decreases |nics|
  {
    if nics != [] { AddNICsKeys(form[NICKey(nics[0].index) := NICString(nics[0])], nics[1..], k); }
  }

  lemma {:induction false} AddNICsAll(form: Proxmox.Conf, nics: seq<NICSpec>, i: nat)
    requires i < |nics| && DistinctIndexes(nics)
    ensures NICKey(nics[i].index) in AddNICs(form, nics)
    ensures AddNICs(form, nics)[NICKey(nics[i].index)] == NICString(nics[i])
    decreases |nics|
  {
    var f := form[NICKey(nics[0].index) := NICString(nics[0])];
    if i == 0 {
      forall n | n in nics[1..] ensures NICKey(n.index) != NICKey(nics[0].index) {
        var j :| 0 <= j < |nics[1..]| && nics[1..][j] == n;
        assert nics[j + 1] == n;
        if NICKey(n.index) == NICKey(nics[0].index) { NICKeyInjective(n.index, nics[0].index); }
      }
      AddNICsKeys(f, nics[1..], NICKey(nics[0].index));
    } else {
      AddNICsAll(f, nics[1..], i - 1);
    }
  }

  lemma BaseKeys(o: CreateOpts, k: string)
    requires k in BaseForm(o)
    ensures IsOtherKey(k)
  {
    var f :| f in FieldsOf(o) && KeyOf(f) == k;
    FieldKey(f);
  }

  lemma NoNICHasKey(nics: seq<NICSpec>, k: string)
    requires !IsNICKey(k)
    ensures forall n :: n in nics ==> NICKey(n.index) != k
  {
    forall n | n in nics ensures NICKey(n.index) != k { NICKeyShape(n.index); }
  }

  lemma KindsDiffer(k: string)
    ensures !(IsDiskKey(k) && IsNICKey(k)) && !IsDiskKey("ide2") && !IsNICKey("ide2")
  {
    assert IsDiskKey(k) ==> k[0] == k[..4][0] == 's';
    assert IsNICKey(k) ==> k[0] == k[..3][0] == 'n';
    assert "ide2"[..3][0] == 'i';
  }

  lemma SetIfOther(form: Proxmox.Conf, wanted: bool, key: string, value: string, k: string)
    requires k != key
    ensures (k in SetIf(form, wanted, key, value) <==> k in form)
    ensures k in form ==> SetIf(form, wanted, key, value)[k] == form[k]
  {
  }

  /** A key that is no NIC's and not the medium's has in the form what the base and the disks gave it. */
  lemma FormAt(o: CreateOpts, k: string)
    requires k !in NICKeys(o.nics) && (o.isoFile != "" ==> k != "ide2")
    ensures k in FormOf(o) <==> k in AddDisks(BaseForm(o), o.disks)
    ensures k in FormOf(o) ==> FormOf(o)[k] == AddDisks(BaseForm(o), o.disks)[k]
  {
    assert forall n :: n in o.nics ==> NICKey(n.index) in NICKeys(o.nics);
    AddNICsKeys(AddDisks(BaseForm(o), o.disks), o.nics, k);
    if o.isoFile != "" {
      SetIfOther(AddNICs(AddDisks(BaseForm(o), o.disks), o.nics), true, "ide2", o.isoFile + ",media=cdrom", k);
    }
  }

  function NICKeys(nics: seq<NICSpec>): set<string> {
    set n | n in nics :: NICKey(n.index)
  }

  lemma NICKeysShape(nics: seq<NICSpec>)
    ensures forall k :: k in NICKeys(nics) ==> IsNICKey(k)
  {
    forall n | n in nics ensures IsNICKey(NICKey(n.index)) { NICKeyShape(n.index); }
  }

  function MediumKey(o: CreateOpts): set<string> { if o.isoFile != "" then {"ide2"} else {} }

  /** No disk's interface is the key of something else in the form. */
  predicate OwnKeys(o: CreateOpts) {
    Interfaces(o.disks) !! BaseForm(o).Keys && Interfaces(o.disks) !! NICKeys(o.nics) && Interfaces(o.disks) !! MediumKey(o)
  }

  lemma BaseKept(o: CreateOpts, k: string)
    requires k in BaseForm(o) && k !in Interfaces(o.disks)
    ensures k in FormOf(o) && FormOf(o)[k] == BaseForm(o)[k]
  {
    BaseKeys(o, k);
    NICKeysShape(o.nics);
    FormAt(o, k);
    AddDisksKeys(BaseForm(o), o.disks, k);
  }

  lemma NICKept(o: CreateOpts, i: nat)
    requires i < |o.nics| && DistinctIndexes(o.nics)
    ensures NICKey(o.nics[i].index) in FormOf(o) && FormOf(o)[NICKey(o.nics[i].index)] == NICString(o.nics[i])
  {
    var k := NICKey(o.nics[i].index);
    var withDisks := AddDisks(BaseForm(o), o.disks);
    NICKeyShape(o.nics[i].index);
    KindsDiffer(k);
    AddNICsAll(withDisks, o.nics, i);
    SetIfOther(AddNICs(withDisks, o.nics), o.isoFile != "", "ide2", o.isoFile + ",media=cdrom", k);
  }

  lemma MediumKept(o: CreateOpts)
    ensures o.isoFile != "" ==> "ide2" in FormOf(o) && FormOf(o)["ide2"] == o.isoFile + ",media=cdrom"
    ensures o.isoFile == "" ==> ("ide2" in FormOf(o) <==> "ide2" in Interfaces(o.disks))
  {
    KindsDiffer("ide2");
    NoNICHasKey(o.nics, "ide2");
    AddNICsKeys(AddDisks(BaseForm(o), o.disks), o.nics, "ide2");
    AddDisksKeys(BaseForm(o), o.disks, "ide2");
    if "ide2" in BaseForm(o) { BaseKeys(o, "ide2"); }
  }

  /** The last of the disks with an interface is submitted, unless a NIC or the medium takes its key. */
  lemma LastDiskKept(o: CreateOpts, i: nat)
    requires i < |o.disks| && forall j :: i < j < |o.disks| ==> o.disks[j].iface != o.disks[i].iface
    requires o.disks[i].iface !in NICKeys(o.nics) && o.disks[i].iface !in MediumKey(o)
    ensures o.disks[i].iface in FormOf(o) && FormOf(o)[o.disks[i].iface] == DiskString(o.disks[i])
  {
    FormAt(o, o.disks[i].iface);
    AddDisksLast(BaseForm(o), o.disks, i);
  }

  /** When no disk's interface is another key, the kinds of keys never meet: every other key has the value it was
      given, so have the NICs' keys and the medium's, and each interface has its last disk. */
  lemma KeysNeverCollide(o: CreateOpts)
    requires OwnKeys(o) && DistinctIndexes(o.nics)
    ensures forall k :: k in BaseForm(o) ==> k in FormOf(o) && FormOf(o)[k] == BaseForm(o)[k]
    ensures forall i :: 0 <= i < |o.nics| ==>
              NICKey(o.nics[i].index) in FormOf(o) && FormOf(o)[NICKey(o.nics[i].index)] == NICString(o.nics[i])
    ensures o.isoFile != "" ==> "ide2" in FormOf(o) && FormOf(o)["ide2"] == o.isoFile + ",media=cdrom"
    ensures forall i :: 0 <= i < |o.disks| && (forall j :: i < j < |o.disks| ==> o.disks[j].iface != o.disks[i].iface) ==>
              o.disks[i].iface in FormOf(o) && FormOf(o)[o.disks[i].iface] == DiskString(o.disks[i])
  {
    forall k | k in BaseForm(o) ensures k in FormOf(o) && FormOf(o)[k] == BaseForm(o)[k] {
      assert k !in Interfaces(o.disks);
      BaseKept(o, k);
    }
    forall i | 0 <= i < |o.nics|
      ensures NICKey(o.nics[i].index) in FormOf(o) && FormOf(o)[NICKey(o.nics[i].index)] == NICString(o.nics[i])
    {
      NICKept(o, i);
    }
    MediumKept(o);
    forall i | 0 <= i < |o.disks| && (forall j :: i < j < |o.disks| ==> o.disks[j].iface != o.disks[i].iface)
      ensures o.disks[i].iface in FormOf(o) && FormOf(o)[o.disks[i].iface] == DiskString(o.disks[i])
    {
      assert o.disks[i] in o.disks;
      assert o.disks[i].iface in Interfaces(o.disks);
      LastDiskKept(o, i);
    }
  }

  lemma {:induction false} AddNICsIn(form: Proxmox.Conf, nics: seq<NICSpec>, k: string)
    ensures k in AddNICs(form, nics) <==> k in form || k in NICKeys(nics)
    decreases |nics|
  {
    if nics != [] {
      assert forall n :: n in nics <==> n == nics[0] || n in nics[1..];
      AddNICsIn(form[NICKey(nics[0].index) := NICString(nics[0])], nics[1..], k);
    }
  }

  lemma FormKey(o: CreateOpts, k: string)
    ensures k in FormOf(o) <==> k in BaseForm(o) || k in Interfaces(o.disks) || k in NICKeys(o.nics) || k in MediumKey(o)
  {
    AddNICsIn(AddDisks(BaseForm(o), o.disks), o.nics, k);
    AddDisksKeys(BaseForm(o), o.disks, k);
  }

  /** The keys of the form are those of its four sources. */
  ghost predicate KeysFrom(keys: set<string>, base: set<string>, disks: set<string>, nics: set<string>, medium: set<string>) {
    forall k :: k in keys <==> k in base || k in disks || k in nics || k in medium
  }

  lemma FormKeys(o: CreateOpts)
    ensures KeysFrom(FormOf(o).Keys, BaseForm(o).Keys, Interfaces(o.disks), NICKeys(o.nics), MediumKey(o))
  {
    forall k ensures k in FormOf(o).Keys <==> k in BaseForm(o) || k in Interfaces(o.disks) || k in NICKeys(o.nics) || k in MediumKey(o) {
      FormKey(o, k);
    }
  }

  predicate NoneTwice<T(==)>(s: seq<T>) {
    forall i, j :: 0 <= i < j < |s| ==> s[i] != s[j]
  }

  function Elements<T>(s: seq<T>): set<T> { set x | x in s }

  lemma NoneTwiceSnoc<T>(init: seq<T>, last: T)
    ensures NoneTwice(init + [last]) <==> NoneTwice(init) && last !in init
    ensures Elements(init + [last]) == Elements(init) + {last}
  {
    var all := init + [last];
    assert forall i :: 0 <= i < |init| ==> all[i] == init[i];
    assert all[|init|] == last;
    if last in init {
      var i :| 0 <= i < |init| && init[i] == last;
      assert all[i] == all[|init|];
    }
    if NoneTwice(all) {
      forall i, j | 0 <= i < j < |init| ensures init[i] != init[j] { assert all[i] != all[j]; }
    }
  }

  /** There are as many different elements as elements exactly when none comes twice. */
  lemma {:induction false} CountElements<T>(s: seq<T>)
    ensures |Elements(s)| <= |s|
    ensures |Elements(s)| == |s| <==> NoneTwice(s)
  {
    if s == [] {
      assert Elements(s) == {};
    } else {
      var init, last := s[..|s| - 1], s[|s| - 1];
      assert s == init + [last];
      CountElements(init);
      NoneTwiceSnoc(init, last);
    }
  }

  lemma CountInterfaces(disks: seq<DiskSpec>)
    ensures |Interfaces(disks)| <= |disks|
    ensures |Interfaces(disks)| == |disks| <==> DistinctInterfaces(disks)
  {
    var keys := seq(|disks|, i requires 0 <= i < |disks| => disks[i].iface);
    CountElements(keys);
    forall k ensures k in Elements(keys) <==> k in Interfaces(disks) {
      if k in Interfaces(disks) {
        var d :| d in disks && d.iface == k;
        var i :| 0 <= i < |disks| && disks[i] == d;
        assert keys[i] == k;
      }
    }
    assert Elements(keys) == Interfaces(disks);
    forall i, j | 0 <= i < j < |disks| ensures keys[i] != keys[j] <==> disks[i].iface != disks[j].iface {
    }
  }

  lemma CountNICs(nics: seq<NICSpec>)
    ensures |NICKeys(nics)| <= |nics|
    ensures |NICKeys(nics)| == |nics| <==> DistinctIndexes(nics)
  {
    var keys := seq(|nics|, i requires 0 <= i < |nics| => NICKey(nics[i].index));
    CountElements(keys);
    forall k ensures k in Elements(keys) <==> k in NICKeys(nics) {
      if k in NICKeys(nics) {
        var n :| n in nics && NICKey(n.index) == k;
        var i :| 0 <= i < |nics| && nics[i] == n;
        assert keys[i] == k;
      }
    }
    assert Elements(keys) == NICKeys(nics);
    forall i, j | 0 <= i < j < |nics| ensures keys[i] != keys[j] <==> nics[i].index != nics[j].index {
      if keys[i] == keys[j] { NICKeyInjective(nics[i].index, nics[j].index); }
    }
  }

  lemma CountUnion(keys: set<string>, base: set<string>, disks: set<string>, nics: set<string>, medium: set<string>)
    requires KeysFrom(keys, base, disks, nics, medium) && base !! nics && base !! medium && nics !! medium
    ensures |keys| <= |base| + |disks| + |nics| + |medium|
    ensures |keys| == |base| + |disks| + |nics| + |medium| <==> disks !! base && disks !! nics && disks !! medium
  {
    var others := base + nics + medium;
    assert |others| == |base| + |nics| + |medium|;
    assert keys == others + disks;
    assert |others + disks| == |others| + |disks| - |others * disks|;
    assert others * disks == {} <==> disks !! base && disks !! nics && disks !! medium by {
      assert others * disks == base * disks + nics * disks + medium * disks;
    }
  }

  lemma OthersApart(o: CreateOpts)
    ensures BaseForm(o).Keys !! NICKeys(o.nics) && BaseForm(o).Keys !! MediumKey(o) && NICKeys(o.nics) !! MediumKey(o)
  {
    NICKeysShape(o.nics);
    KindsDiffer("ide2");
    forall k | k in BaseForm(o) ensures IsOtherKey(k) { BaseKeys(o, k); }
  }

  /** For all options: nothing is lost in the form, as many entries as fields, disks, NICs and medium, exactly when no two
      disks and no two NICs share a key and no disk's interface is the key of something else. */
  lemma NothingLostIff(o: CreateOpts)
    ensures |FormOf(o)| == |BaseForm(o)| + |o.disks| + |o.nics| + |MediumKey(o)|
       <==> DistinctInterfaces(o.disks) && DistinctIndexes(o.nics) && OwnKeys(o)
  {
    FormKeys(o);
    CountInterfaces(o.disks);
    CountNICs(o.nics);
    OthersApart(o);
    CountUnion(FormOf(o).Keys, BaseForm(o).Keys, Interfaces(o.disks), NICKeys(o.nics), MediumKey(o));
    assert |FormOf(o)| == |FormOf(o).Keys| && |BaseForm(o)| == |BaseForm(o).Keys|;
  }

  /** Interfaces of the SCSI kind are no other keys. */
  lemma ScsiOwnKeys(o: CreateOpts)
    requires DiskKeysOnly(o.disks)
    ensures OwnKeys(o) && "ide2" !in Interfaces(o.disks) && forall f :: KeyOf(f) !in Interfaces(o.disks)
  {
    NICKeysShape(o.nics);
    KindsDiffer("ide2");
    forall k | k in Interfaces(o.disks) ensures IsDiskKey(k) && !IsNICKey(k) { KindsDiffer(k); }
    forall k | k in BaseForm(o) ensures IsOtherKey(k) { BaseKeys(o, k); }
    forall f: Field ensures KeyOf(f) !in Interfaces(o.disks) { FieldKey(f); }
  }

  lemma DiskEntryIff(o: CreateOpts, k: string)
    requires DiskKeysOnly(o.disks)
    ensures k in DiskEntries(FormOf(o)) <==> k in Interfaces(o.disks)
  {
    if IsDiskKey(k) {
      KindsDiffer(k);
      NICKeysShape(o.nics);
      FormAt(o, k);
      AddDisksKeys(BaseForm(o), o.disks, k);
      if k in BaseForm(o) { BaseKeys(o, k); }
    }
  }

  /** With SCSI interfaces: as many SCSI entries as disks exactly when no two disks have the same interface. */
  lemma NoDiskLostIff(o: CreateOpts)
    requires DiskKeysOnly(o.disks)
    ensures |DiskEntries(FormOf(o))| == |o.disks| <==> DistinctInterfaces(o.disks)
  {
    forall k ensures k in DiskEntries(FormOf(o)) <==> k in Interfaces(o.disks) { DiskEntryIff(o, k); }
    assert DiskEntries(FormOf(o)) == Interfaces(o.disks);
    CountInterfaces(o.disks);
  }

  /** What the field is to be submitted with, if at all. */
  function Wanted(o: CreateOpts, f: Field): Option<string> {
    match f
    case VMID => Some(Itoa(o.vmid))
    case Name => Some(o.name)
    case Memory => if o.memory > 0 then Some(Itoa(o.memory)) else None
    case Cores => if o.cores > 0 then Some(Itoa(o.cores)) else None
    case Sockets => if o.sockets > 0 then Some(Itoa(o.sockets)) else None
    case CPU => Some(if o.cpu != "" then o.cpu else "host")
    case BIOS => if o.bios != "" then Some(o.bios) else None
    case Machine => if o.machine != "" then Some(o.machine) else None
    case SCSIHW => if o.scsihw != "" then Some(o.scsihw) else None
    case OSType => if o.ostype != "" then Some(o.ostype) else None
    case Tags => if o.tags != [] then Some(Text.Join(o.tags, ',')) else None
    case Agent => Some("1")
    case OnBoot => if o.startAtBoot then Some("1") else None
    case Protection => if o.protection then Some("1") else None
    case EFIDisk => if o.efiDisk.Some? then Some(EFIDiskString(o.efiDisk.value)) else None
  }

  function At<K, V>(m: map<K, V>, k: K): Option<V> { if k in m then Some(m[k]) else None }

  lemma SizingAt(o: CreateOpts, f: Field)
    ensures At(Sizing(o), f) == if f in {VMID, Name, Memory, Cores, Sockets, CPU} then Wanted(o, f) else None
  {
  }

  lemma HardwareAt(m: map<Field, string>, o: CreateOpts, f: Field)
    ensures At(Hardware(m, o), f) == if f in {BIOS, Machine, SCSIHW, OSType} && Wanted(o, f).Some? then Wanted(o, f) else At(m, f)
  {
  }

  lemma HandlingAt(m: map<Field, string>, o: CreateOpts, f: Field)
    ensures At(Handling(m, o), f)
         == if f in {Tags, Agent, OnBoot, Protection, EFIDisk} && Wanted(o, f).Some? then Wanted(o, f) else At(m, f)
  {
  }

  lemma FieldAt(o: CreateOpts, f: Field)
    ensures At(FieldsOf(o), f) == Wanted(o, f)
  {
    SizingAt(o, f);
    HardwareAt(Sizing(o), o, f);
    HandlingAt(Hardware(Sizing(o), o), o, f);
  }

  lemma BaseAt(o: CreateOpts, f: Field)
    ensures At(BaseForm(o), KeyOf(f)) == Wanted(o, f)
  {
    FieldAt(o, f);
  }

  /** Every field is submitted under its own key with its own value, and an absent one is not submitted; no NIC or
      medium disturbs that, and no disk whose interface is another one. */
  lemma FieldSubmitted(o: CreateOpts, f: Field)
    requires KeyOf(f) !in Interfaces(o.disks)
    ensures At(FormOf(o), KeyOf(f)) == Wanted(o, f)
  {
    FieldKey(f);
    BaseAt(o, f);
    NICKeysShape(o.nics);
    FormAt(o, KeyOf(f));
    AddDisksKeys(BaseForm(o), o.disks, KeyOf(f));
  }

  predicate ReadsBack(form: Proxmox.Conf, f: Field, n: Int) {
    (n > 0 <==> KeyOf(f) in form) && (n > 0 ==> Atoi(form[KeyOf(f)]) == Some(n))
  }

  function NumberOf(o: CreateOpts, f: Field): Option<Int> {
    match f
    case VMID => Some(o.vmid)
    case Memory => Some(o.memory)
    case Cores => Some(o.cores)
    case Sockets => Some(o.sockets)
    case _ => None
  }

  lemma WantedNumber(o: CreateOpts, f: Field)
    requires o.vmid > 0 && NumberOf(o, f).Some?
    ensures Wanted(o, f) == if NumberOf(o, f).value > 0 then Some(Itoa(NumberOf(o, f).value)) else None
  {
  }

  lemma WrittenReadsBack(form: Proxmox.Conf, f: Field, n: Int)
    requires At(form, KeyOf(f)) == if n > 0 then Some(Itoa(n)) else None
    ensures ReadsBack(form, f, n)
  {
    AtoiInvertsItoa(n);
  }

  /** The whole form by its keys, when no disk's interface is one of them. */
  lemma FormReads(o: CreateOpts)
    requires forall f: Field :: KeyOf(f) !in Interfaces(o.disks)
    ensures SizingReads(FormOf(o), o) && HardwareReads(FormOf(o), o) && HandlingReads(FormOf(o), o)
  {
    forall f: Field ensures At(FormOf(o), KeyOf(f)) == Wanted(o, f) { FieldSubmitted(o, f); }
    WantedReads(FormOf(o), o);
  }

  predicate SizingReads(form: Proxmox.Conf, o: CreateOpts) {
    && At(form, "vmid") == Some(Itoa(o.vmid)) && At(form, "name") == Some(o.name)
    && At(form, "memory") == (if o.memory > 0 then Some(Itoa(o.memory)) else None)
    && At(form, "cores") == (if o.cores > 0 then Some(Itoa(o.cores)) else None)
    && At(form, "sockets") == (if o.sockets > 0 then Some(Itoa(o.sockets)) else None)
    && At(form, "cpu") == Some(if o.cpu != "" then o.cpu else "host")
  }

  predicate HardwareReads(form: Proxmox.Conf, o: CreateOpts) {
    && At(form, "bios") == Given(o.bios) && At(form, "machine") == Given(o.machine)
    && At(form, "scsihw") == Given(o.scsihw) && At(form, "ostype") == Given(o.ostype)
  }

  predicate HandlingReads(form: Proxmox.Conf, o: CreateOpts) {
    && At(form, "tags") == (if o.tags != [] then Some(Text.Join(o.tags, ',')) else None)
    && At(form, "agent") == Some("1")
    && At(form, "onboot") == (if o.startAtBoot then Some("1") else None)
    && At(form, "protection") == (if o.protection then Some("1") else None)
    && At(form, "efidisk0") == (if o.efiDisk.Some? then Some(EFIDiskString(o.efiDisk.value)) else None)
  }

  lemma WantedReads(form: Proxmox.Conf, o: CreateOpts)
    requires forall f: Field :: At(form, KeyOf(f)) == Wanted(o, f)
    ensures SizingReads(form, o) && HardwareReads(form, o) && HandlingReads(form, o)
  {
    WantedSizing(form, o);
    WantedHardware(form, o);
    WantedHandling(form, o);
  }

  lemma WantedSizing(form: Proxmox.Conf, o: CreateOpts)
    requires forall f: Field :: At(form, KeyOf(f)) == Wanted(o, f)
    ensures SizingReads(form, o)
  {
    assert KeyOf(VMID) == "vmid" && KeyOf(Name) == "name" && KeyOf(Memory) == "memory" && KeyOf(Cores) == "cores";
    assert KeyOf(Sockets) == "sockets" && KeyOf(CPU) == "cpu";
  }

  lemma WantedHardware(form: Proxmox.Conf, o: CreateOpts)
    requires forall f: Field :: At(form, KeyOf(f)) == Wanted(o, f)
    ensures HardwareReads(form, o)
  {
    assert KeyOf(BIOS) == "bios" && KeyOf(Machine) == "machine" && KeyOf(SCSIHW) == "scsihw" && KeyOf(OSType) == "ostype";
  }

  lemma WantedHandling(form: Proxmox.Conf, o: CreateOpts)
    requires forall f: Field :: At(form, KeyOf(f)) == Wanted(o, f)
    ensures HandlingReads(form, o)
  {
    assert KeyOf(Tags) == "tags" && KeyOf(Agent) == "agent" && KeyOf(OnBoot) == "onboot";
    assert KeyOf(Protection) == "protection" && KeyOf(EFIDisk) == "efidisk0";
  }

  function Given(value: string): Option<string> { if value != "" then Some(value) else None }

  /** Nothing that the options check asks for can be left out. */
  lemma EachIsNeeded(o: CreateOpts, d: DiskSpec, n: NICSpec)
    ensures !ValidOpts(o.(node := "")) && !ValidOpts(o.(vmid := 0)) && !ValidOpts(o.(name := ""))
    ensures Lower(o.bios) == "ovmf" ==> !ValidOpts(o.(efiDisk := None))
    ensures d.iface == "" || d.storage == "" || d.size == "" ==> !ValidOpts(o.(disks := o.disks + [d]))
    ensures n.bridge == "" ==> !ValidOpts(o.(nics := o.nics + [n]))
    ensures ValidOpts(o) && d.iface != "" && d.storage != "" && d.size != "" ==> ValidOpts(o.(disks := o.disks + [d]))
    ensures ValidOpts(o) && n.bridge != "" ==> ValidOpts(o.(nics := o.nics + [n]))
  {
    assert d in o.disks + [d] && n in o.nics + [n];
  }

  /** The numbers of the form read back as the numbers of the options. */
  lemma NumbersReadBack(o: CreateOpts, f: Field)
    requires KeyOf(f) !in Interfaces(o.disks) && o.vmid > 0 && NumberOf(o, f).Some?
    ensures ReadsBack(FormOf(o), f, NumberOf(o, f).value)
  {
    FieldSubmitted(o, f);
    WantedNumber(o, f);
    WrittenReadsBack(FormOf(o), f, NumberOf(o, f).value);
  }
}
