/** The address table of the switch as agents/switch-ctl/conf.c lists it and finds entries in it. */
module ArlTable {
  import opened Wrappers
  import opened Text

  type Mac = m: seq<int> | |m| == 6 && forall i :: 0 <= i < 6 ==> 0 <= m[i] < 256 witness [0, 0, 0, 0, 0, 0]

  datatype Entry = Entry(isStatic: bool, port: nat, mac: Mac, vlan: string)

  datatype Errno = EINVAL | ENOENT | EFAULT

  // Printing

  function HexDigit(d: nat, upper: bool): char
    requires d < 16
  {
    if d < 10 then DigitOf(d) else ((if upper then 'A' else 'a') as int + d - 10) as char
  }

  /** A byte as two hexadecimal digits. */
  function Hex(b: nat, upper: bool): (s: string)
    requires b < 256
    ensures |s| == 2
  {
    [HexDigit(b / 16, upper), HexDigit(b % 16, upper)]
  }

  /** Bytes `i` to 5 of an address, separated by colons. */
  function MacText(m: Mac, i: nat, upper: bool): (s: string)
    requires i < 6
    ensures |s| == 17 - 3 * i
    decreases |m| - i
  {
    if i == 5 then Hex(m[5], upper) else Hex(m[i], upper) + ":" + MacText(m, i + 1, upper)
  }

  /** An entry spelled as an instance name, with an address in lower or in upper case. */
  function Spelled(e: Entry, upper: bool): string {
    Decimal(if e.isStatic then 1 else 0) + "." + (Decimal(e.port) + "." + (MacText(e.mac, 0, upper) + "." + e.vlan))
  }

  /** The instance name of an entry, in lower case. */
  function Name(e: Entry): string {
    Spelled(e, false)
  }

  function Names(table: seq<Entry>): (r: seq<string>)
    ensures |r| == |table| && forall i :: 0 <= i < |r| ==> r[i] == Name(table[i])
  {
    seq(|table|, i requires 0 <= i < |table| => Name(table[i]))
  }

  predicate SpaceFree(table: seq<Entry>) {
    forall i :: 0 <= i < |table| ==> ' ' !in table[i].vlan
  }

  lemma {:induction false} MacTextHasNoSpecials(m: Mac, i: nat, upper: bool)
    requires i < 6
    ensures '.' !in MacText(m, i, upper) && ' ' !in MacText(m, i, upper)
    decreases 6 - i
  {
    if i < 5 {
      MacTextHasNoSpecials(m, i + 1, upper);
    }
  }

  lemma DecimalHasNoSpecials(n: nat)
    ensures '.' !in Decimal(n) && ' ' !in Decimal(n)
  {
  }

  lemma NameIsWord(e: Entry)
    requires ' ' !in e.vlan
    ensures IsWord(Name(e))
  {
    MacTextHasNoSpecials(e.mac, 0, false);
    DecimalHasNoSpecials(e.port);
    DecimalHasNoSpecials(if e.isStatic then 1 else 0);
  }

  lemma NameLength(e: Entry)
    ensures |Name(e)| == |Decimal(e.port)| + 21 + |e.vlan|
  {
    assert |Decimal(0)| == 1 && |Decimal(1)| == 1;
  }

  /** What the list reserves for the first `n` entries, without the final null character. */
  function Reserved(table: seq<Entry>, n: nat): nat
    requires n <= |table|
  {
    if n == 0 then 0 else Reserved(table, n - 1) + (2 + 4 + 6 * 3 + |table[n - 1].vlan| + 1)
  }

  /** The digits of the first `n` port numbers. */
  function PortDigits(table: seq<Entry>, n: nat): nat
    requires n <= |table|
  {
    if n == 0 then 0 else PortDigits(table, n - 1) + |Decimal(table[n - 1].port)|
  }

  /** A text up to its first space, at which the printer goes on. */
  function Short(w: string): (r: string)
    ensures ' ' !in r && r <= w && (' ' !in w ==> r == w)
    ensures ' ' in w ==> |r| < |w| && w[|r|] == ' '
  {
    var space := IndexOf(w, ' ', 0);
    if space.None? then (assert w[0..] == w; w) else w[..space.value]
  }

  function Shorts(names: seq<string>): (r: seq<string>)
    ensures |r| == |names| && forall i :: 0 <= i < |r| ==> r[i] == Short(names[i])
  {
    if names == [] then [] else Shorts(names[..|names| - 1]) + [Short(names[|names| - 1])]
  }

  /** The first `n` names, all but the last one up to their first spaces, and the last one as far as
      the buffer of `len` characters goes. */
  function Shown(names: seq<string>, n: nat, len: nat): string
    requires n <= |names|
  {
    if n == 0 then ""
    else
      var before := Listing(Shorts(names), n - 1);
      if len <= |before| then "" else before + Printed(names[n - 1] + " ", len - |before|)
  }

  /** One round of the printing loop of arl_list(): where it goes on, if the first space of the item
      is not cut off. */
  method PrintOne(list: string, ptr: nat, name: string, len: nat) returns (list': string, ptr': Option<nat>)
    requires ptr <= |list| && ptr < len
    ensures list' == list[..ptr] + Printed(name + " ", len - ptr)
    ensures ptr' == if ptr + |Short(name)| + 1 < len then Some(ptr + |Short(name)| + 1) else None
    ensures ptr'.Some? ==> ptr'.value <= |list'| && list'[..ptr'.value] == list[..ptr] + (Short(name) + " ")
  {
    var before := list[..ptr];
    ShortIsPrefix(name);
    if |Short(name)| + 1 < len - ptr {
      SpaceIsShown(before, name + " ", Short(name), len - ptr);
    } else {
      SpaceIsCutOff(before, name + " ", Short(name), len - ptr);
    }
    list' := before + Printed(name + " ", len - ptr);
    var space := IndexOf(list', ' ', ptr);
    if space.None? {
      return list', None;
    }
    ptr' := Some(space.value + 1);
  }

  /** After `i` rounds, the next item is to be printed at `ptr`. */
  ghost predicate Printing(names: seq<string>, i: nat, len: nat, list: string, ptr: nat)
    requires i <= |names|
  {
    && list == Shown(names, i, len) && ptr < len && ptr <= |list|
    && list[..ptr] == Listing(Shorts(names), i)
  }

  lemma PrintingGoesOn(names: seq<string>, i: nat, len: nat, list: string, ptr: nat)
    requires i < |names| && Printing(names, i, len, list, ptr)
    ensures Shown(names, i + 1, len) == list[..ptr] + Printed(names[i] + " ", len - ptr)
    ensures Listing(Shorts(names), i + 1) == list[..ptr] + (Short(names[i]) + " ")
  {
    ListingNext(Shorts(names), i);
  }

  /** The printing loop of arl_list(): the list is refused exactly when the names up to their first
      spaces do not fit the buffer of `len` characters. */
  method Print(names: seq<string>, len: nat) returns (r: Result<string, Errno>)
    requires len > 0
    ensures r == if |Listing(Shorts(names), |names|)| < len then Ok(Shown(names, |names|, len)) else Err(EFAULT)
  {
    var list, ptr: nat := "", 0;
    for i := 0 to |names|
      invariant Printing(names, i, len, list, ptr)
    {
      PrintingGoesOn(names, i, len, list, ptr);
      var next;
      list, next := PrintOne(list, ptr, names[i], len);
      if next.None? {
        ListingGrows(Shorts(names), i + 1, |names|);
        return Err(EFAULT);
      }
      ptr := next.value;
    }
    return Ok(list);
  }

  lemma ListingNext(ws: seq<string>, i: nat)
    requires i < |ws|
    ensures Listing(ws, i + 1) == Listing(ws, i) + (ws[i] + " ")
  {
  }

  lemma ShortIsPrefix(name: string)
    ensures Short(name) + " " <= name + " "
  {
    var item, short := name + " ", Short(name);
    assert item[|short|] == ' ';
  }

  /** The first space behind what is printed into `room` characters, if it is not cut off. */
  lemma SpaceIsShown(before: string, item: string, short: string, room: nat)
    requires ' ' !in short && short + " " <= item && |short| + 1 < room
    ensures var list := before + Printed(item, room);
            && IndexOf(list, ' ', |before|) == Some(|before| + |short|)
            && list[..|before| + |short| + 1] == before + (short + " ")
  {
    PrefixesOfOne(item, short + " ", Printed(item, room));
    FirstSpace(before, Printed(item, room), short);
  }

  lemma SpaceIsCutOff(before: string, item: string, short: string, room: nat)
    requires ' ' !in short && short + " " <= item && 0 < room <= |short| + 1
    ensures IndexOf(before + Printed(item, room), ' ', |before|) == None
  {
    PrefixesOfOne(item, Printed(item, room), short);
    NoSpace(before, Printed(item, room), short);
  }

  lemma PrefixesOfOne(s: string, a: string, b: string)
    requires a <= s && b <= s && |a| <= |b|
    ensures a <= b
  {
  }

  lemma FirstSpace(before: string, shown: string, short: string)
    requires ' ' !in short && short + " " <= shown
    ensures IndexOf(before + shown, ' ', |before|) == Some(|before| + |short|)
    ensures (before + shown)[..|before| + |short| + 1] == before + (short + " ")
  {
    var list := before + shown;
    assert list[|before| + |short|] == (short + " ")[|short|] == ' ';
    forall k | |before| <= k < |before| + |short|
      ensures list[k] != ' '
    {
      assert list[k] == short[k - |before|];
    }
    IndexIs(list, ' ', |before|, |before| + |short|);
  }

  lemma NoSpace(before: string, shown: string, short: string)
    requires ' ' !in short && shown <= short
    ensures IndexOf(before + shown, ' ', |before|) == None
  {
    var list := before + shown;
    forall k | |before| <= k < |list|
      ensures list[k] != ' '
    {
      assert list[k] == shown[k - |before|] == short[k - |before|];
    }
    IndexIsNone(list, ' ', |before|);
  }

  /** The characters of the first `n` VLAN names from their first spaces on. */
  function Dropped(table: seq<Entry>, n: nat): nat
    requires n <= |table|
  {
    if n == 0 then 0 else Dropped(table, n - 1) + (|table[n - 1].vlan| - |Short(table[n - 1].vlan)|)
  }

  lemma ShortOfConcat(a: string, b: string)
    requires ' ' !in a
    ensures Short(a + b) == a + Short(b)
  {
    var s, short := a + b, a + Short(b);
    assert short <= s;
    forall k | 0 <= k < |short|
      ensures s[k] != ' '
    {
      assert s[k] == short[k];
    }
    if ' ' in b {
      assert s[|short|] == ' ';
    } else {
      assert ' ' !in s;
    }
  }

  lemma ShortName(e: Entry)
    ensures Short(Name(e)) == Name(e.(vlan := Short(e.vlan)))
  {
    var kind, port, mac := Decimal(if e.isStatic then 1 else 0), Decimal(e.port), MacText(e.mac, 0, false);
    MacTextHasNoSpecials(e.mac, 0, false);
    DecimalHasNoSpecials(e.port);
    DecimalHasNoSpecials(if e.isStatic then 1 else 0);
    ShortOfConcat(mac + ".", e.vlan);
    ShortOfConcat(port + ".", mac + "." + e.vlan);
    ShortOfConcat(kind + ".", port + "." + (mac + "." + e.vlan));
  }

  /** By how many digits the first `n` port numbers exceed three digits each; fewer digits count as well. */
  function Excess(table: seq<Entry>, n: nat): int
    requires n <= |table|
  {
    if n == 0 then 0 else Excess(table, n - 1) + |Decimal(table[n - 1].port)| - 3
  }

  lemma {:induction false} ExcessOverThree(table: seq<Entry>, n: nat)
    requires n <= |table|
    ensures Excess(table, n) == PortDigits(table, n) - 3 * n
  {
    if n > 0 {
      ExcessOverThree(table, n - 1);
    }
  }

  lemma {:induction false} ListingLength(table: seq<Entry>, names: seq<string>, n: nat)
    requires n <= |table| == |names|
    requires forall i :: 0 <= i < |table| ==> |names[i]| == |Decimal(table[i].port)| + 21 + |Short(table[i].vlan)|
    ensures |Listing(names, n)| + Dropped(table, n) == Reserved(table, n) + Excess(table, n)
  {
    if n > 0 {
      ListingLength(table, names, n - 1);
    }
  }

  lemma ShortNameLength(e: Entry)
    ensures |Short(Name(e))| == |Decimal(e.port)| + 21 + |Short(e.vlan)|
  {
    ShortName(e);
    NameLength(e.(vlan := Short(e.vlan)));
  }

  lemma {:induction false} NoExcess(table: seq<Entry>, n: nat)
    requires n <= |table| && forall i :: 0 <= i < |table| ==> table[i].port <= 999
    ensures Excess(table, n) <= 0
  {
    if n > 0 {
      NoExcess(table, n - 1);
      DecimalLength(table[n - 1].port);
    }
  }

  /** With port numbers up to 999 no list is refused. */
  lemma ShortPortsFit(table: seq<Entry>)
    requires forall i :: 0 <= i < |table| ==> table[i].port <= 999
    ensures Fits(table)
  {
    NoExcess(table, |table|);
  }

  /** A single entry with a port beyond that is refused. */
  lemma LongPortIsRefused(e: Entry)
    requires e.port > 999 && ' ' !in e.vlan
    ensures !Fits([e])
  {
    DecimalLength(e.port);
    assert Excess([e], 1) == Excess([e], 0) + |Decimal(e.port)| - 3;
    assert Dropped([e], 1) == Dropped([e], 0) + (|e.vlan| - |Short(e.vlan)|);
  }

  /** The size of the buffer of the list. */
  function ListSize(table: seq<Entry>): nat {
    Reserved(table, |table|) + 1
  }

  method BufferSize(table: seq<Entry>) returns (len: nat)
    ensures len == ListSize(table)
  {
    len := 1;
    for i := 0 to |table|
      invariant len == Reserved(table, i) + 1
    {
      len := len + (2 + 4 + 6 * 3 + |table[i].vlan| + 1);
    }
  }

  /** The names up to their first spaces fit the buffer exactly when the port numbers have at most
      three digits on average, where what a VLAN name has from its first space on makes up for digits. */
  predicate Fits(table: seq<Entry>) {
    Excess(table, |table|) <= Dropped(table, |table|)
  }

  /** arl_list(). All names but the last one end at their first spaces. */
  method List(table: seq<Entry>) returns (r: Result<string, Errno>)
    ensures r == if Fits(table) then Ok(Shown(Names(table), |table|, ListSize(table))) else Err(EFAULT)
  {
    var len := BufferSize(table);
    ShortNamesFit(table);
    r := Print(Names(table), len);
  }

  /** If no VLAN name has a space in it, the list is refused exactly when the port numbers have more
      than three digits on average. */
  lemma FitsWithoutSpaces(table: seq<Entry>)
    requires SpaceFree(table)
    ensures Fits(table) <==> PortDigits(table, |table|) <= 3 * |table|
  {
    NothingDropped(table, |table|);
    ExcessOverThree(table, |table|);
  }

  /** Otherwise it is complete. */
  lemma ListIsWhole(table: seq<Entry>)
    requires SpaceFree(table) && Fits(table)
    ensures Shown(Names(table), |table|, ListSize(table)) == Listing(Names(table), |table|)
  {
    ShortNamesFit(table);
    WholeList(table, ListSize(table));
  }

  lemma ShortNamesFit(table: seq<Entry>)
    ensures Fits(table) <==> |Listing(Shorts(Names(table)), |table|)| < ListSize(table)
  {
    forall i | 0 <= i < |table|
      ensures |Shorts(Names(table))[i]| == |Decimal(table[i].port)| + 21 + |Short(table[i].vlan)|
    {
      ShortNameLength(table[i]);
    }
    ListingLength(table, Shorts(Names(table)), |table|);
  }

  /** Names without spaces are all shown as they are. */
  lemma WholeList(table: seq<Entry>, len: nat)
    requires SpaceFree(table) && |Listing(Shorts(Names(table)), |table|)| < len
    ensures Shown(Names(table), |table|, len) == Listing(Names(table), |table|)
  {
    var names := Names(table);
    forall i | 0 <= i < |table|
      ensures Short(names[i]) == names[i]
    {
      NameIsWord(table[i]);
    }
    assert Shorts(names) == names;
    WholeNames(names, len);
  }

  lemma WholeNames(names: seq<string>, len: nat)
    requires Shorts(names) == names && |Listing(names, |names|)| < len
    ensures Shown(names, |names|, len) == Listing(names, |names|)
  {
    if names != [] {
      ListingNext(names, |names| - 1);
    }
  }

  lemma {:induction false} NothingDropped(table: seq<Entry>, n: nat)
    requires n <= |table| && SpaceFree(table)
    ensures Dropped(table, n) == 0
  {
    if n > 0 {
      NothingDropped(table, n - 1);
    }
  }

  // Parsing

  function HexValue(c: char): Option<nat> {
    if IsDigit(c) then Some(c as int - '0' as int)
    else if 'a' <= c <= 'f' then Some(c as int - 'a' as int + 10)
    else if 'A' <= c <= 'F' then Some(c as int - 'A' as int + 10)
    else None
  }

  /** %02x of sscanf() from position `i` on, of which the lowest byte is kept: behind spaces, a field
      of two characters, the first of which may be a sign. A prefix 0x leaves no room for a digit. */
  function ScanHex(s: string, i: nat): (r: Option<(nat, nat)>)
    requires i <= |s|
    ensures r.Some? ==> r.value.0 < 256 && i < r.value.1 <= |s|
  {
    var k := SpacesEnd(s, i);
    if k == |s| then None
    else if s[k] == '-' || s[k] == '+' then
      if k + 1 == |s| || HexValue(s[k + 1]).None? then None
      else
        var v := HexValue(s[k + 1]).value;
        Some((if s[k] == '-' && v > 0 then 256 - v else v, k + 2))
    else if HexValue(s[k]).None? || (s[k] == '0' && k + 1 < |s| && (s[k + 1] == 'x' || s[k + 1] == 'X')) then None
    else if k + 1 == |s| || HexValue(s[k + 1]).None? then Some((HexValue(s[k]).value, k + 1))
    else Some((HexValue(s[k]).value * 16 + HexValue(s[k + 1]).value, k + 2))
  }

  /** Bytes `n` to 5 of an address from position `i` on, if there are as many. */
  function ScanMac(s: string, i: nat, n: nat): (r: Option<seq<int>>)
    requires i <= |s| && n < 6
    ensures r.Some? ==> |r.value| == 6 - n && forall k :: 0 <= k < 6 - n ==> 0 <= r.value[k] < 256
    decreases |s| - i
  {
    var b := ScanHex(s, i);
    if b.None? then None
    else
      var (value, end) := b.value;
      if n == 5 then Some([value])
      else if end == |s| || s[end] != ':' then None
      else
        var rest := ScanMac(s, end + 1, n + 1);
        if rest.None? then None else Some([value] + rest.value)
  }

  /** The end of a name: the address and the VLAN, whose field has `size` characters. */
  function ParseTail(s: string, isStatic: bool, port: nat, size: nat): Result<Entry, Errno> {
    var mac := ScanMac(s, 0, 0);
    if mac.None? then Err(EINVAL)
    else
      var dot := IndexOf(s, '.', 0);
      if dot.None? || |s| - dot.value - 1 >= size then Err(EINVAL)
      else Ok(Entry(isStatic, port, mac.value, s[dot.value + 1..]))
  }

  /** A name from the port number on; `pid` converts to the type of a port number. */
  function ParsePort(s: string, isStatic: bool, pid: int -> nat, size: nat): Result<Entry, Errno> {
    var (port, end) := Strtol(s);
    if end == 0 || end == |s| || s[end] != '.' then Err(EINVAL)
    else ParseTail(s[end + 1..], isStatic, pid(port), size)
  }

  /** arl_parse_inst_name(). */
  function Parse(name: string, pid: int -> nat, size: nat): Result<Entry, Errno> {
    var (value, end) := Strtol(name);
    var kind := Signed32(value);
    if end == 0 || end == |name| || name[end] != '.' || (kind != 1 && kind != 0) then Err(EINVAL)
    else ParsePort(name[end + 1..], kind == 1, pid, size)
  }

  lemma ScanHexReadsHex(s: string, i: nat, b: nat, upper: bool)
    requires b < 256 && i + 2 <= |s| && s[i..i + 2] == Hex(b, upper)
    ensures ScanHex(s, i) == Some((b, i + 2))
  {
    assert s[i] == s[i..i + 2][0] == HexDigit(b / 16, upper);
    assert s[i + 1] == s[i..i + 2][1] == HexDigit(b % 16, upper);
    HexDigitReads(b / 16, upper);
    HexDigitReads(b % 16, upper);
  }

  lemma HexDigitReads(d: nat, upper: bool)
    requires d < 16
    ensures HexValue(HexDigit(d, upper)) == Some(d) && !IsSpace(HexDigit(d, upper))
  {
  }

  /** Other ways to write a byte: behind spaces, as one digit, and with a sign; but not with a prefix 0x. */
  lemma ScanHexReadsOther(s: string, i: nat, d: nat, upper: bool)
    requires i < |s| && d < 16
    ensures IsSpace(s[i]) ==> ScanHex(s, i) == ScanHex(s, i + 1)
    ensures s[i] == HexDigit(d, upper)
            && (i + 1 < |s| ==> HexValue(s[i + 1]) == None && s[i + 1] != 'x' && s[i + 1] != 'X')
            ==> ScanHex(s, i) == Some((d, i + 1))
    ensures i + 1 < |s| && (s[i] == '+' || s[i] == '-') && s[i + 1] == HexDigit(d, upper)
            ==> ScanHex(s, i) == Some((if s[i] == '+' then d else (256 - d) % 256, i + 2))
    ensures i + 1 < |s| && s[i] == '0' && (s[i + 1] == 'x' || s[i + 1] == 'X') ==> ScanHex(s, i) == None
  {
    HexDigitReads(d, upper);
  }

  lemma MacTextParts(m: Mac, n: nat, upper: bool)
    requires n < 5
    ensures var t := MacText(m, n, upper);
            t[..2] == Hex(m[n], upper) && t[2] == ':' && t[3..] == MacText(m, n + 1, upper)
  {
  }

  lemma PartOfSlice(s: string, i: nat, j: nat, a: nat, b: nat)
    requires i <= j <= |s| && a <= b <= j - i
    ensures s[i..j][a..b] == s[i + a..i + b]
  {
    var t := s[i..j];
    assert forall k :: 0 <= k < b - a ==> t[a..b][k] == t[a + k] == s[i + (a + k)] == s[i + a..i + b][k];
  }

  lemma {:induction false} ScanMacReadsMac(s: string, i: nat, m: Mac, n: nat, upper: bool)
    requires n < 6 && i + 17 - 3 * n <= |s| && s[i..i + 17 - 3 * n] == MacText(m, n, upper)
    ensures ScanMac(s, i, n) == Some(m[n..])
    decreases 6 - n
  {
    var end := i + 17 - 3 * n;
    if n < 5 {
      MacTextParts(m, n, upper);
      PartOfSlice(s, i, end, 0, 2);
      assert s[i..i + 2] == MacText(m, n, upper)[..2];
      ScanHexReadsHex(s, i, m[n], upper);
      assert s[i + 2] == s[i..end][2];
      PartOfSlice(s, i, end, 3, end - i);
      assert s[i + 3..end] == MacText(m, n, upper)[3..];
      ScanMacReadsMac(s, i + 3, m, n + 1, upper);
      assert [m[n]] + m[n + 1..] == m[n..];
    } else {
      ScanHexReadsHex(s, i, m[n], upper);
      assert m[5..] == [m[5]];
    }
  }

  /** The numbers and the length of the VLAN name survive being parsed. */
  predicate Parsable(e: Entry, pid: int -> nat, size: nat) {
    e.port <= LONG_MAX && pid(e.port) == e.port && |e.vlan| < size
  }

  /** A listed name is parsed back to its entry. */
  lemma ParseReadsName(e: Entry, pid: int -> nat, size: nat)
    requires Parsable(e, pid, size)
    ensures Parse(Name(e), pid, size) == Ok(e)
  {
    ParseReadsSpelled(e, false, pid, size);
  }

  /** So is a name with its address in upper case; if the field of the VLAN is too short, the name is
      refused. */
  lemma ParseReadsSpelled(e: Entry, upper: bool, pid: int -> nat, size: nat)
    requires e.port <= LONG_MAX && pid(e.port) == e.port
    ensures Parse(Spelled(e, upper), pid, size) == if |e.vlan| < size then Ok(e) else Err(EINVAL)
  {
    var kind := if e.isStatic then 1 else 0;
    SmallNumber(kind);
    KindIsChecked(kind, Decimal(e.port) + "." + (MacText(e.mac, 0, upper) + "." + e.vlan), pid, size);
    ParsePortReads(e, upper, pid, size);
  }

  /** The number in front of a name, kept in 32 bits, has to be 0 or 1. */
  lemma KindIsChecked(kind: nat, rest: string, pid: int -> nat, size: nat)
    requires kind <= LONG_MAX
    ensures Parse(Decimal(kind) + "." + rest, pid, size) ==
            if kind % WORD <= 1 then ParsePort(rest, kind % WORD == 1, pid, size) else Err(EINVAL)
  {
    NumberThenDot(kind, rest);
  }

  /** Each part of a name but the last one needs a dot behind it. */
  lemma DotsAreNeeded(s: string, isStatic: bool, port: nat, pid: int -> nat, size: nat)
    requires '.' !in s
    ensures Parse(s, pid, size) == ParsePort(s, isStatic, pid, size) == Err(EINVAL)
    ensures ParseTail(s, isStatic, port, size) == Err(EINVAL)
  {
  }

  lemma ParsePortReads(e: Entry, upper: bool, pid: int -> nat, size: nat)
    requires e.port <= LONG_MAX && pid(e.port) == e.port
    ensures ParsePort(Decimal(e.port) + "." + (MacText(e.mac, 0, upper) + "." + e.vlan), e.isStatic, pid, size) ==
            if |e.vlan| < size then Ok(e) else Err(EINVAL)
  {
    NumberThenDot(e.port, MacText(e.mac, 0, upper) + "." + e.vlan);
    TailReads(e, upper, size);
  }

  lemma NumberThenDot(n: nat, rest: string)
    requires n <= LONG_MAX
    ensures var s := Decimal(n) + "." + rest;
            var end := |Decimal(n)|;
            Strtol(s) == (n, end) && 0 < end < |s| && s[end] == '.' && s[end + 1..] == rest
  {
    assert Decimal(n) + "." + rest == Decimal(n) + ("." + rest);
    StrtolReadsDecimal(n, "." + rest);
  }

  lemma TailReads(e: Entry, upper: bool, size: nat)
    ensures ParseTail(MacText(e.mac, 0, upper) + "." + e.vlan, e.isStatic, e.port, size) ==
            if |e.vlan| < size then Ok(e) else Err(EINVAL)
  {
    var mac := MacText(e.mac, 0, upper);
    var tail := mac + "." + e.vlan;
    assert tail[0..17] == mac && tail[18..] == e.vlan;
    ScanMacReadsMac(tail, 0, e.mac, 0, upper);
    assert e.mac[0..] == e.mac;
    MacTextHasNoSpecials(e.mac, 0, upper);
    FirstDot(mac, e.vlan);
  }

  lemma FirstDot(before: string, after: string)
    requires '.' !in before
    ensures IndexOf(before + "." + after, '.', 0) == Some(|before|)
  {
    var s := before + "." + after;
    var dot := IndexOf(s, '.', 0);
    assert s[|before|] == '.' && forall k :: 0 <= k < |before| ==> s[k] == before[k];
  }

  // Reading the list back

  /** What is printed of a name behind its first space into a buffer of `room` characters. */
  function AfterSpace(name: string, room: nat): string
    requires room > 0
  {
    if ' ' in name then Printed(name[|Short(name)| + 1..] + " ", room) else ""
  }

  /** What the list shows of the last name behind its first space. */
  function Behind(names: seq<string>, len: nat): string
    requires |Listing(Shorts(names), |names|)| < len
  {
    if names == [] then "" else AfterSpace(names[|names| - 1], len - |Listing(Shorts(names), |names|)|)
  }

  lemma ItemInParts(name: string, room: nat)
    requires |Short(name)| + 1 < room
    ensures Printed(name + " ", room) == Short(name) + " " + AfterSpace(name, room - |Short(name)| - 1)
  {
    var short := Short(name) + " ";
    if ' ' in name {
      assert name + " " == short + (name[|short|..] + " ");
      PrintedConcat(short, name[|short|..] + " ", room);
    } else {
      assert short + "" == short;
    }
  }

  lemma Regrouped(a: string, b: string, c: string)
    ensures a + (b + c) == a + b + c
  {
  }

  lemma ShownInParts(names: seq<string>, len: nat)
    requires |Listing(Shorts(names), |names|)| < len
    ensures Shown(names, |names|, len) == Listing(Shorts(names), |names|) + Behind(names, len)
  {
    if names != [] {
      var n, before := |names| - 1, Listing(Shorts(names), |names| - 1);
      ListingNext(Shorts(names), n);
      ItemInParts(names[n], len - |before|);
      Regrouped(before, Short(names[n]) + " ", Behind(names, len));
    }
  }

  lemma WordsOfShown(names: seq<string>, len: nat)
    requires AreWords(Shorts(names)) && |Listing(Shorts(names), |names|)| < len
    ensures Words(Shown(names, |names|, len)) == Shorts(names) + Words(Behind(names, len))
  {
    var shorts := Shorts(names);
    ShownInParts(names, len);
    WordsOfListing(shorts, |shorts|, Behind(names, len));
    assert shorts[..|shorts|] == shorts;
  }

  lemma ShortNamesAreWords(table: seq<Entry>)
    ensures AreWords(Shorts(Names(table)))
  {
    forall i | 0 <= i < |table|
      ensures IsWord(Shorts(Names(table))[i])
    {
      var e := table[i];
      ShortName(e);
      NameIsWord(e.(vlan := Short(e.vlan)));
    }
  }

  /** The items of a list which is not refused. */
  function Items(table: seq<Entry>): seq<string> {
    Words(Shown(Names(table), |table|, ListSize(table)))
  }

  /** They are all the names up to their first spaces, and what is shown of the last name behind its
      first space. */
  lemma ItemsAreShort(table: seq<Entry>)
    requires Fits(table)
    ensures |Listing(Shorts(Names(table)), |table|)| < ListSize(table)
    ensures Items(table) == Shorts(Names(table)) + Words(Behind(Names(table), ListSize(table)))
  {
    ShortNamesFit(table);
    ShortNamesAreWords(table);
    WordsOfShown(Names(table), ListSize(table));
  }

  /** Each entry has its item, which is parsed to it with the VLAN name up to its first space. */
  lemma SpacesCutNames(table: seq<Entry>, i: nat, pid: int -> nat, size: nat)
    requires Fits(table) && i < |table| && Parsable(table[i], pid, size)
    ensures i < |Items(table)|
    ensures Parse(Items(table)[i], pid, size) == Ok(table[i].(vlan := Short(table[i].vlan)))
  {
    ItemsAreShort(table);
    assert Items(table)[i] == Short(Names(table)[i]) == Short(Name(table[i]));
    ShortName(table[i]);
    ParseReadsName(table[i].(vlan := Short(table[i].vlan)), pid, size);
  }

  /** There is an item for each entry, in order, and it is parsed to that entry. */
  predicate ReadBack(items: seq<string>, table: seq<Entry>, pid: int -> nat, size: nat) {
    |items| == |table| && forall i :: 0 <= i < |items| ==> Parse(items[i], pid, size) == Ok(table[i])
  }

  lemma SpaceIsLost(table: seq<Entry>, i: nat, pid: int -> nat, size: nat)
    requires Fits(table) && i < |table| && Parsable(table[i], pid, size) && ' ' in table[i].vlan
    ensures !ReadBack(Items(table), table, pid, size)
  {
    SpacesCutNames(table, i, pid, size);
    assert |Short(table[i].vlan)| < |table[i].vlan|;
  }

  lemma NothingBehind(table: seq<Entry>)
    requires Fits(table) && SpaceFree(table)
    ensures |Items(table)| == |table|
  {
    ItemsAreShort(table);
    if table != [] {
      NameIsWord(table[|table| - 1]);
    }
  }

  /** A list which is not refused, split and parsed, is the table in its order if and only if no VLAN
      name has a space. */
  lemma ListIsReadBack(table: seq<Entry>, pid: int -> nat, size: nat)
    requires Fits(table) && forall i :: 0 <= i < |table| ==> Parsable(table[i], pid, size)
    ensures ReadBack(Items(table), table, pid, size) <==> SpaceFree(table)
  {
    if SpaceFree(table) {
      NothingBehind(table);
      forall i | 0 <= i < |table|
        ensures Parse(Items(table)[i], pid, size) == Ok(table[i])
      {
        SpacesCutNames(table, i, pid, size);
      }
    } else {
      var i :| 0 <= i < |table| && ' ' in table[i].vlan;
      SpaceIsLost(table, i, pid, size);
    }
  }

  // Looking up

  predicate SameKey(a: Entry, b: Entry) {
    a.mac == b.mac && a.vlan == b.vlan
  }

  /** The position of the first entry from `i` on with the address and VLAN of `key`, |table| if there is none. */
  function FirstKey(table: seq<Entry>, key: Entry, i: nat): (k: nat)
    requires i <= |table|
    ensures i <= k <= |table| && (k < |table| ==> SameKey(table[k], key))
    ensures forall j :: i <= j < k ==> !SameKey(table[j], key)
    decreases |table| - i
  {
    if i == |table| || SameKey(table[i], key) then i else FirstKey(table, key, i + 1)
  }

  /** arl_entry_find(). */
  method Find(table: seq<Entry>, name: string, pid: int -> nat, size: nat) returns (r: Result<nat, Errno>)
    ensures var p := Parse(name, pid, size);
            r == if p.Err? then Err(EINVAL)
                 else if FirstKey(table, p.value, 0) == |table| then Err(ENOENT)
                 else Ok(FirstKey(table, p.value, 0))
  {
    var p := Parse(name, pid, size);
    if p.Err? {
      return Err(EINVAL);
    }
    var key := p.value;
    for i := 0 to |table|
      invariant FirstKey(table, key, 0) == FirstKey(table, key, i)
    {
      if table[i].mac == key.mac && table[i].vlan == key.vlan {
        return Ok(i);
      }
    }
    return Err(ENOENT);
  }

  /** Looking up a listed name finds its entry exactly when no entry before it has the same
      address and VLAN. The port and the kind of the name do not count. */
  lemma ListedNameFinds(table: seq<Entry>, i: nat, pid: int -> nat, size: nat)
    requires i < |table| && Parsable(table[i], pid, size)
    ensures var p := Parse(Name(table[i]), pid, size);
            && p.Ok? && FirstKey(table, p.value, 0) <= i && SameKey(table[FirstKey(table, p.value, 0)], table[i])
            && (FirstKey(table, p.value, 0) == i <==> forall j :: 0 <= j < i ==> !SameKey(table[j], table[i]))
  {
    ParseReadsName(table[i], pid, size);
    FirstKeyIs(table, i);
  }

  lemma FirstKeyIs(table: seq<Entry>, i: nat)
    requires i < |table|
    ensures var k := FirstKey(table, table[i], 0);
            && k <= i && SameKey(table[k], table[i])
            && (k == i <==> forall j :: 0 <= j < i ==> !SameKey(table[j], table[i]))
  {
  }
}
