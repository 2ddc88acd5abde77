/** Naming, listing and finding routes in agents/win32/conf.c. */
module Routes {
  import opened Wrappers
  import opened Sequences
  import opened Text

  /** A row of the forwarding table: the bytes of the destination, the length of its prefix, the
      metric, whether Windows made the route for an address of its own, the next hop unless that is
      unspecified, and the name of the interface if Windows tells it. */
  datatype Row = V4(dst: seq<nat>, prefix: nat, metric: nat, local: bool, hop: Option<seq<nat>>, dev: Option<string>)
               | V6(dst: seq<nat>, prefix: nat, metric: nat, local: bool, hop: Option<seq<nat>>, dev: Option<string>)
  {
    predicate Valid() {
      && |dst| == (if V4? then 4 else 16) && (forall i :: 0 <= i < |dst| ==> dst[i] < 256)
      && prefix < 0x100 && metric < WORD
    }

    function FamilyBits(): nat {
      if V4? then 32 else 128
    }

    /** route_listed(). */
    predicate Listed()
      requires Valid()
    {
      if local && prefix == FamilyBits() then false
      else if V4? then !(224 <= dst[0] < 240) && dst != [255, 255, 255, 255]
      else dst[0] != 255
    }

    /** route_name(); `ntop` prints the destination. */
    function Name(ntop: Row -> string): string {
      ntop(this) + "|" + Decimal(prefix) + (if metric != 0 then ",metric=" + Decimal(metric) else "")
    }
  }

  /** An IPv4 address as a number. */
  function Number(dst: seq<nat>): nat
    requires |dst| == 4
  {
    ((dst[0] * 0x100 + dst[1]) * 0x100 + dst[2]) * 0x100 + dst[3]
  }

  /** All rows are listed but those of own addresses, that is local ones with a full prefix, those of
      multicast addresses, which are 224.0.0.0/4 and ff00::/8, and that of the broadcast address. */
  lemma ListedRows(r: Row)
    requires r.Valid()
    ensures r.Listed() <==>
              && !(r.local && r.prefix == if r.V4? then 32 else 128)
              && (r.V4? ==> !(0xE000_0000 <= Number(r.dst) < 0xF000_0000) && Number(r.dst) != 0xFFFF_FFFF)
              && (r.V6? ==> r.dst[0] != 0xFF)
    ensures r.FamilyBits() == 8 * |r.dst|
  {
    if r.V4? {
      NumberInBytes(r.dst[0], r.dst[1], r.dst[2], r.dst[3]);
    }
  }

  lemma NumberInBytes(a: nat, b: nat, c: nat, d: nat)
    requires a < 256 && b < 256 && c < 256 && d < 256
    ensures var n := ((a * 0x100 + b) * 0x100 + c) * 0x100 + d;
            && (0xE000_0000 <= n < 0xF000_0000 <==> 224 <= a < 240)
            && (n == 0xFFFF_FFFF <==> a == b == c == d == 255)
  {
  }

  datatype Errno = EINVAL | ENOENT | System(err: nat)

  ghost predicate ValidTable(table: seq<Row>, ntop: Row -> string) {
    forall i :: 0 <= i < |table| ==> table[i].Valid() && ' ' !in ntop(table[i])
  }

  lemma NameIsWord(r: Row, ntop: Row -> string)
    requires ' ' !in ntop(r)
    ensures IsWord(r.Name(ntop))
  {
    assert ' ' !in Decimal(r.prefix) && ' ' !in Decimal(r.metric);
    assert ' ' !in ",metric=";
    assert r.Name(ntop)[|ntop(r)|] == '|';
  }

  predicate OccursAt(s: string, key: string, k: nat) {
    k + |key| <= |s| && s[k..k + |key|] == key
  }

  /** strstr(). */
  predicate Contains(s: string, key: string) {
    exists k :: 0 <= k <= |s| && OccursAt(s, key, k)
  }

  /** Between spaces, a whole item of a list is found and nothing else. */
  lemma {:induction false} WholeItemsAreFound(ws: seq<string>, n: nat, w: string)
    requires n <= |ws| && IsWord(w) && AreWords(ws)
    ensures Contains(" " + Listing(ws, n), " " + w + " ") <==> w in ws[..n]
  {
    var key, s := " " + w + " ", " " + Listing(ws, n);
    if n == 0 {
    } else {
      var before, last := " " + Listing(ws, n - 1), ws[n - 1];
      assert s == before + (last + " ");
      WholeItemsAreFound(ws, n - 1, w);
      assert ws[..n] == ws[..n - 1] + [last];
      if w in ws[..n - 1] {
        var k :| 0 <= k <= |before| && OccursAt(before, key, k);
        assert s[k..k + |key|] == before[k..k + |key|];
        assert OccursAt(s, key, k);
      } else if w == last {
        EndsWithSpace(ws, n - 1);
        assert OccursAt(s, key, |before| - 1);
      }
      if Contains(s, key) {
        var k :| 0 <= k <= |s| && OccursAt(s, key, k);
        EndsWithSpace(ws, n - 1);
        KeyInPieces(before, last, w, k);
      }
    }
  }

  lemma EndsWithSpace(ws: seq<string>, n: nat)
    requires n <= |ws|
    ensures var s := " " + Listing(ws, n); s[|s| - 1] == ' '
  {
  }

  /** A word between two spaces which reaches into the last item is that item. */
  lemma LastPiece(s: string, start: nat, k: nat, end: nat)
    requires 0 < start <= end < |s| && k < end && s[start - 1] == s[k] == s[end] == s[|s| - 1] == ' '
    requires forall i {:trigger s[i]} :: k < i < end ==> s[i] != ' '
    requires forall i {:trigger s[i]} :: start <= i < |s| - 1 ==> s[i] != ' '
    ensures k == start - 1 && end == |s| - 1
  {
  }

  /** An occurrence of the key is in the old items, or it is the last item. */
  lemma KeyInPieces(before: string, last: string, w: string, k: nat)
    requires before != "" && before[|before| - 1] == ' ' && IsWord(last) && IsWord(w)
    requires OccursAt(before + (last + " "), " " + w + " ", k)
    ensures w == last || Contains(before, " " + w + " ")
  {
    var s, key := before + (last + " "), " " + w + " ";
    if k + |key| <= |before| {
      assert before[k..k + |key|] == s[k..k + |key|];
      assert OccursAt(before, key, k);
    } else {
      KeyCharacters(s, w, k);
      assert forall i {:trigger s[i]} :: |before| <= i < |s| - 1 ==> s[i] == last[i - |before|] != ' ';
      LastPiece(s, |before|, k, k + |w| + 1);
      assert w == s[k + 1..k + 1 + |w|] == last;
    }
  }

  lemma KeyCharacters(s: string, w: string, k: nat)
    requires ' ' !in w && OccursAt(s, " " + w + " ", k)
    ensures s[k] == s[k + |w| + 1] == ' ' && s[k + 1..k + 1 + |w|] == w
    ensures forall i {:trigger s[i]} :: k < i < k + |w| + 1 ==> s[i] != ' '
  {
    var key := " " + w + " ";
    assert forall j {:trigger key[j]} :: 0 <= j < |key| ==> key[j] == s[k..k + |key|][j] == s[k + j];
    assert forall i {:trigger s[i]} :: k < i < k + |w| + 1 ==> s[i] == key[i - k] == w[i - k - 1];
  }

  /** Row `i` is listed under the name. */
  ghost predicate Named(table: seq<Row>, ntop: Row -> string, name: string, i: nat)
    requires i < |table| && ValidTable(table, ntop)
  {
    table[i].Listed() && table[i].Name(ntop) == name
  }

  /** Some of the first `n` rows is listed under the name. */
  ghost predicate NamedBefore(table: seq<Row>, ntop: Row -> string, name: string, n: nat)
    requires n <= |table| && ValidTable(table, ntop)
  {
    exists i :: 0 <= i < n && Named(table, ntop, name, i)
  }

  /** Row `i` is listed, and no row before it is under the same name. */
  ghost predicate Shown(table: seq<Row>, ntop: Row -> string, i: nat)
    requires i < |table| && ValidTable(table, ntop)
  {
    table[i].Listed() && !NamedBefore(table, ntop, table[i].Name(ntop), i)
  }

  /** The names of the first `n` rows which are shown, in the order of the rows. */
  ghost function ShownNames(table: seq<Row>, ntop: Row -> string, n: nat): seq<string>
    requires n <= |table| && ValidTable(table, ntop)
  {
    if n == 0 then []
    else ShownNames(table, ntop, n - 1) + if Shown(table, ntop, n - 1) then [table[n - 1].Name(ntop)] else []
  }

  /** A name is shown if and only if a row is listed under it. */
  lemma {:induction false} ShownIfNamed(table: seq<Row>, ntop: Row -> string, n: nat, name: string)
    requires n <= |table| && ValidTable(table, ntop)
    ensures name in ShownNames(table, ntop, n) <==> NamedBefore(table, ntop, name, n)
  {
    if n > 0 {
      ShownIfNamed(table, ntop, n - 1, name);
      if NamedBefore(table, ntop, name, n - 1) {
        var i :| 0 <= i < n - 1 && Named(table, ntop, name, i);
        assert 0 <= i < n && Named(table, ntop, name, i);
      }
      if Named(table, ntop, name, n - 1) {
        assert NamedBefore(table, ntop, name, n);
      }
    }
  }

  /** No name is shown twice, and each is an item. */
  lemma {:induction false} ShownNamesDistinct(table: seq<Row>, ntop: Row -> string, n: nat)
    requires n <= |table| && ValidTable(table, ntop)
    ensures Distinct(ShownNames(table, ntop, n)) && AreWords(ShownNames(table, ntop, n))
  {
    if n > 0 {
      ShownNamesDistinct(table, ntop, n - 1);
      NameIsWord(table[n - 1], ntop);
      ShownIfNamed(table, ntop, n - 1, table[n - 1].Name(ntop));
    }
  }

  lemma {:induction false} ListingPrefix(ws: seq<string>, w: string, n: nat)
    requires n <= |ws|
    ensures Listing(ws + [w], n) == Listing(ws, n)
  {
    if n > 0 {
      ListingPrefix(ws, w, n - 1);
    }
  }

  /** One row of route_list(): `names` are the names listed so far. */
  method ListName(name: string, str: string, seen: string, ghost names: seq<string>)
    returns (str': string, seen': string)
    requires IsWord(name) && AreWords(names)
    requires str == Joined(names) && seen == " " + Listing(names, |names|)
    ensures var names' := if name in names then names else names + [name];
            str' == Joined(names') && seen' == " " + Listing(names', |names'|)
  {
    var key := " " + name + " ";
    str', seen' := str, seen;
    WholeItemsAreFound(names, |names|, name);
    assert names[..|names|] == names;
    if !Contains(seen, key) {
      ListingPrefix(names, name, |names|);
      JoinedGrows(names, name);
      seen' := seen + (name + " ");
      str' := str + (if str == "" then "" else " ") + name;
    }
  }

  /** route_list(), given the forwarding table or the error which reading it gives. */
  method List(read: Result<seq<Row>, nat>, ntop: Row -> string) returns (r: Result<string, Errno>)
    requires read.Ok? ==> ValidTable(read.value, ntop)
    ensures r == if read.Err? then Err(System(read.error))
                 else Ok(Joined(ShownNames(read.value, ntop, |read.value|)))
  {
    if read.Err? {
      return Err(System(read.error));
    }
    var table := read.value;
    var list, seen := "", " ";
    for i := 0 to |table|
      invariant list == Joined(ShownNames(table, ntop, i))
      invariant seen == " " + Listing(ShownNames(table, ntop, i), |ShownNames(table, ntop, i)|)
    {
      ghost var names := ShownNames(table, ntop, i);
      assert names + [] == names;
      if table[i].Listed() {
        var name := table[i].Name(ntop);
        NameIsWord(table[i], ntop);
        ShownNamesDistinct(table, ntop, i);
        ShownIfNamed(table, ntop, i, name);
        list, seen := ListName(name, list, seen, names);
      }
    }
    return Ok(list);
  }

  lemma JoinedGrows(ws: seq<string>, w: string)
    requires AreWords(ws)
    ensures Joined(ws + [w]) == Joined(ws) + (if Joined(ws) == "" then "" else " ") + w
  {
    ListingPrefix(ws, w, |ws|);
    if ws != [] {
      assert Joined(ws) != "";
      assert Listing(ws, |ws|) == Joined(ws) + " ";
    }
  }

  /** The first listed row with the name, |table| if there is none. */
  ghost function FirstRow(table: seq<Row>, ntop: Row -> string, name: string, i: nat): (k: nat)
    requires i <= |table| && ValidTable(table, ntop)
    ensures i <= k <= |table|
    ensures k < |table| ==> table[k].Listed() && table[k].Name(ntop) == name
    ensures forall j :: i <= j < k && table[j].Listed() ==> table[j].Name(ntop) != name
    decreases |table| - i
  {
    if i == |table| || (table[i].Listed() && table[i].Name(ntop) == name) then i
    else FirstRow(table, ntop, name, i + 1)
  }

  // The parser of route names

  const RCF_MAX_VAL := 1024
  const INET6_ADDRSTRLEN := 46

  /** What a name tells about a route; absent attributes are not named. */
  datatype Info = Info(v6: bool, dst: seq<nat>, prefix: nat, metric: Option<nat>, tos: Option<nat>, table: Option<nat>)

  /** strstr(): the first position from `i` on. */
  function FirstOccurrence(s: string, key: string, i: nat): (r: Option<nat>)
    requires i <= |s|
    ensures r.Some? ==> i <= r.value && OccursAt(s, key, r.value)
    ensures forall k :: i <= k < (if r.Some? then r.value else |s|) ==> !OccursAt(s, key, k)
    decreases |s| - i
  {
    if OccursAt(s, key, i) then Some(i)
    else if i == |s| then None
    else FirstOccurrence(s, key, i + 1)
  }

  function Atoi(s: string): nat {
    Word(Strtol(s).0)
  }

  /** The number behind a key. */
  function NumberAfter(s: string, key: string): Option<nat> {
    var p := FirstOccurrence(s, key, 0);
    if p.None? then None else Some(Atoi(s[p.value + |key|..]))
  }

  /** The part of a name from the length of the prefix on. */
  function ParsePrefix(rest: string, v6: bool, dst: seq<nat>): Result<Info, Errno> {
    var (v, end) := Strtol(rest);
    if (rest != "" && rest[0] == '-') || end == 0 || Signed32(v) > (if v6 then 128 else 32) then Err(EINVAL)
    else
      var tail := rest[end..];
      Ok(Info(v6, dst, Word(v), NumberAfter(tail, "metric="), NumberAfter(tail, "tos="), NumberAfter(tail, "table=")))
  }

  /** ta_rt_parse_inst_name(); `pton` reads an address of either family. */
  function ParseName(name: string, pton: (bool, string) -> Option<seq<nat>>): Result<Info, Errno> {
    var copy := Printed(name, RCF_MAX_VAL);
    var bar := IndexOf(copy, '|', 0);
    if bar.None? then Err(EINVAL)
    else
      var addr := copy[..bar.value];
      var v6 := IndexOf(addr, ':', 0).Some?;
      var dst := pton(v6, addr);
      if dst.None? then Err(EINVAL) else ParsePrefix(copy[bar.value + 1..], v6, dst.value)
  }

  /** The address of a row is printed as inet_ntop() prints and inet_pton() reads it. */
  predicate Printable(r: Row, ntop: Row -> string, pton: (bool, string) -> Option<seq<nat>>) {
    var addr := ntop(r);
    && |addr| < INET6_ADDRSTRLEN && '|' !in addr && (':' in addr <==> r.V6?)
    && pton(r.V6?, addr) == Some(r.dst)
  }

  lemma {:induction false} DecimalFits(n: nat, k: nat, limit: nat)
    requires k > 0 && n < limit && limit <= Power10(k)
    ensures |Decimal(n)| <= k
  {
    if n >= 10 {
      DecimalFits(n / 10, k - 1, Power10(k - 1));
    }
  }

  function Power10(k: nat): (p: nat)
    ensures p > 0
  {
    if k == 0 then 1 else 10 * Power10(k - 1)
  }

  lemma NumbersAreShort(r: Row)
    requires r.Valid()
    ensures |Decimal(r.prefix)| <= 10 && |Decimal(r.metric)| <= 10
  {
    assert Power10(2) == 100 && Power10(4) == 10000 && Power10(6) == 1000000 && Power10(8) == 100000000;
    assert Power10(10) == 10000000000;
    DecimalFits(r.prefix, 10, WORD);
    DecimalFits(r.metric, 10, WORD);
  }

  function MetricText(metric: nat): string {
    if metric != 0 then ",metric=" + Decimal(metric) else ""
  }

  lemma OccurrenceHas(s: string, key: string, k: nat, c: char)
    requires OccursAt(s, key, k) && c in key
    ensures c in s
  {
    var j :| 0 <= j < |key| && key[j] == c;
    assert s[k..k + |key|][j] == s[k + j];
  }

  lemma DoesNotOccur(s: string, key: string, c: char)
    requires c in key && c !in s
    ensures NumberAfter(s, key) == None
  {
    var p := FirstOccurrence(s, key, 0);
    if p.Some? {
      OccurrenceHas(s, key, p.value, c);
    }
  }

  lemma OtherKeysAreAbsent(metric: nat)
    ensures NumberAfter(MetricText(metric), "tos=") == None && NumberAfter(MetricText(metric), "table=") == None
  {
    var s := MetricText(metric);
    forall i | 0 <= i < |s|
      ensures s[i] != 'o' && s[i] != 'b'
    {
      if i >= 8 {
        assert s[i] == Decimal(metric)[i - 8];
      }
    }
    assert "tos="[1] == 'o' && "table="[2] == 'b';
    DoesNotOccur(s, "tos=", 'o');
    DoesNotOccur(s, "table=", 'b');
  }

  lemma NotAtOtherStart(s: string, key: string)
    requires s != "" && key != "" && s[0] != key[0]
    ensures !OccursAt(s, key, 0)
  {
    assert |key| <= |s| ==> s[0..|key|][0] == s[0];
  }

  lemma OccursBehind(before: string, key: string, rest: string)
    ensures var s := before + (key + rest);
            OccursAt(s, key, |before|) && s[|before| + |key|..] == rest
  {
  }

  lemma FirstBehindComma(key: string, rest: string)
    requires key != "" && key[0] != ','
    ensures FirstOccurrence([','] + (key + rest), key, 0) == Some(1)
  {
    var s := [','] + (key + rest);
    NotAtOtherStart(s, key);
    OccursBehind([','], key, rest);
    var p := FirstOccurrence(s, key, 0);
    assert p.Some? && p.value != 0;
  }

  lemma AtoiReads(n: nat)
    requires n < WORD
    ensures Atoi(Decimal(n)) == n
  {
    StrtolReadsAll(n);
  }

  lemma NumberBehindComma(key: string, n: nat)
    requires key != "" && key[0] != ',' && n < WORD
    ensures NumberAfter([','] + (key + Decimal(n)), key) == Some(n)
  {
    FirstBehindComma(key, Decimal(n));
    OccursBehind([','], key, Decimal(n));
    AtoiReads(n);
  }

  lemma MetricIsRead(metric: nat)
    requires 0 < metric < WORD
    ensures NumberAfter(",metric=" + Decimal(metric), "metric=") == Some(metric)
  {
    assert ",metric=" + Decimal(metric) == [','] + ("metric=" + Decimal(metric));
    NumberBehindComma("metric=", metric);
  }

  lemma MetricTextIsRead(metric: nat)
    requires metric < WORD
    ensures NumberAfter(MetricText(metric), "metric=") == if metric != 0 then Some(metric) else None
  {
    if metric != 0 {
      MetricIsRead(metric);
    } else {
      assert "metric="[0] == 'm';
      DoesNotOccur("", "metric=", 'm');
    }
  }

  lemma PrefixIsRead(r: Row)
    requires r.Valid()
    ensures ParsePrefix(Decimal(r.prefix) + MetricText(r.metric), r.V6?, r.dst) ==
            if r.prefix <= r.FamilyBits()
            then Ok(Info(r.V6?, r.dst, r.prefix, if r.metric != 0 then Some(r.metric) else None, None, None))
            else Err(EINVAL)
  {
    var digits, tail := Decimal(r.prefix), MetricText(r.metric);
    PrefixDigits(r.prefix, tail);
    SmallNumber(r.prefix);
    MetricTextIsRead(r.metric);
    OtherKeysAreAbsent(r.metric);
  }

  lemma Parts(a: string, b: string)
    requires a != ""
    ensures a + b != "" && (a + b)[0] == a[0] && (a + b)[|a|..] == b
  {
  }

  lemma PrefixDigits(prefix: nat, tail: string)
    requires prefix < 0x100 && (tail != "" ==> !IsDigit(tail[0]))
    ensures var digits := Decimal(prefix);
            var rest := digits + tail;
            rest != "" && rest[0] != '-' && Strtol(rest) == (prefix, |digits|) && rest[|digits|..] == tail
  {
    StrtolReadsDecimal(prefix, tail);
    Parts(Decimal(prefix), tail);
  }

  /** The name of a row is parsed back, unless its prefix is longer than an address, when it is
      refused. */
  lemma ParseReadsName(r: Row, ntop: Row -> string, pton: (bool, string) -> Option<seq<nat>>)
    requires r.Valid() && Printable(r, ntop, pton)
    ensures ParseName(r.Name(ntop), pton) ==
            if r.prefix <= r.FamilyBits()
            then Ok(Info(r.V6?, r.dst, r.prefix, if r.metric != 0 then Some(r.metric) else None, None, None))
            else Err(EINVAL)
  {
    var addr, rest := ntop(r), Decimal(r.prefix) + MetricText(r.metric);
    NumbersAreShort(r);
    assert r.Name(ntop) == addr + ("|" + rest);
    ParseSplits(addr, rest, r.V6?, r.dst, pton);
    PrefixIsRead(r);
  }

  lemma ParseSplits(addr: string, rest: string, v6: bool, dst: seq<nat>, pton: (bool, string) -> Option<seq<nat>>)
    requires '|' !in addr && (':' in addr <==> v6) && pton(v6, addr) == Some(dst)
    requires |addr| + 1 + |rest| < RCF_MAX_VAL
    ensures ParseName(addr + ("|" + rest), pton) == ParsePrefix(rest, v6, dst)
  {
    var name := addr + ("|" + rest);
    assert Printed(name, RCF_MAX_VAL) == name;
    BarSplits(addr, rest);
    FoundIffIn(addr, ':');
  }

  lemma BarSplits(addr: string, rest: string)
    requires '|' !in addr
    ensures var name := addr + ("|" + rest);
            IndexOf(name, '|', 0) == Some(|addr|) && name[..|addr|] == addr && name[|addr| + 1..] == rest
  {
    var name := addr + ("|" + rest);
    assert name[|addr|] == '|' && forall k :: 0 <= k < |addr| ==> name[k] == addr[k];
    IndexIs(name, '|', 0, |addr|);
  }

  lemma FoundIffIn(s: string, c: char)
    ensures IndexOf(s, c, 0).Some? <==> c in s
  {
  }

  /** What route_find() tells: the row, and the route with its gateway and its interface. */
  datatype Route = Route(row: nat, info: Info, hop: Option<seq<nat>>, dev: Option<string>)

  /** route_find(). */
  method Find(read: Result<seq<Row>, nat>, ntop: Row -> string, pton: (bool, string) -> Option<seq<nat>>, name: string)
    returns (r: Result<Route, Errno>)
    requires read.Ok? ==> ValidTable(read.value, ntop)
    ensures r == if ParseName(name, pton).Err? then Err(EINVAL)
                 else if read.Err? then Err(System(read.error))
                 else
                   var table := read.value;
                   var k := FirstRow(table, ntop, name, 0);
                   if k == |table| then Err(ENOENT)
                   else Ok(Route(k, ParseName(name, pton).value, table[k].hop, table[k].dev))
  {
    var parsed := ParseName(name, pton);
    if parsed.Err? {
      return Err(EINVAL);
    }
    if read.Err? {
      return Err(System(read.error));
    }
    var table := read.value;
    for i := 0 to |table|
      invariant FirstRow(table, ntop, name, 0) == FirstRow(table, ntop, name, i)
    {
      if !table[i].Listed() {
        continue;
      }
      if table[i].Name(ntop) == name {
        return Ok(Route(i, parsed.value, table[i].hop, table[i].dev));
      }
    }
    return Err(ENOENT);
  }

  /** The items of the list are the names of the listed rows, each once. */
  lemma ListShowsNames(table: seq<Row>, ntop: Row -> string, name: string)
    requires ValidTable(table, ntop)
    ensures var items := Words(Joined(ShownNames(table, ntop, |table|)));
            && items == ShownNames(table, ntop, |table|)
            && Distinct(items)
            && (name in items <==> NamedBefore(table, ntop, name, |table|))
  {
    var names := ShownNames(table, ntop, |table|);
    ShownNamesDistinct(table, ntop, |table|);
    WordsOfJoined(names);
    ShownIfNamed(table, ntop, |table|, name);
  }

  /** A name leads to the very row for which it was put on the list: of the rows listed under one
      name, exactly the one which is shown is found. */
  lemma FoundIffShown(table: seq<Row>, ntop: Row -> string, i: nat)
    requires ValidTable(table, ntop) && i < |table| && table[i].Listed()
    ensures FirstRow(table, ntop, table[i].Name(ntop), 0) == i <==> Shown(table, ntop, i)
  {
    var k := FirstRow(table, ntop, table[i].Name(ntop), 0);
    if k < i {
      assert Named(table, ntop, table[i].Name(ntop), k);
    }
  }

  /** Looking up a name on the list: the row for which it was put there is found, with its own
      destination, prefix and metric, as long as its prefix is not longer than an address. */
  method FindListed(table: seq<Row>, ntop: Row -> string, pton: (bool, string) -> Option<seq<nat>>, i: nat)
    returns (r: Result<Route, Errno>)
    requires ValidTable(table, ntop) && i < |table| && Shown(table, ntop, i) && Printable(table[i], ntop, pton)
    ensures var row := table[i];
            r == if row.prefix > row.FamilyBits() then Err(EINVAL)
                 else Ok(Route(i, Info(row.V6?, row.dst, row.prefix,
                                            if row.metric != 0 then Some(row.metric) else None, None, None),
                               row.hop, row.dev))
  {
    ParseReadsName(table[i], ntop, pton);
    FoundIffShown(table, ntop, i);
    r := Find(Ok(table), ntop, pton, table[i].Name(ntop));
  }
}
