/** The string functions of the C library which the agents print and parse names with.
    A string is taken without its terminating null character. */
module Text {
  import opened Wrappers

  predicate IsDigit(c: char) {
    '0' <= c <= '9'
  }

  predicate IsSpace(c: char) {
    c == ' ' || '\t' <= c <= '\r'
  }

  /** The white space of the C locale: blank, tabulators, line feed, form feed and carriage return. */
  lemma WhiteSpace(c: char)
    ensures IsSpace(c) <==> c as int in {0x20, 0x09, 0x0A, 0x0B, 0x0C, 0x0D}
  {
  }

  function DigitOf(d: nat): char
    requires d < 10
  {
    ('0' as int + d) as char
  }

  /** A number printed with %d or %u. */
  function Decimal(n: nat): (s: string)
    ensures s != [] && forall i :: 0 <= i < |s| ==> IsDigit(s[i])
  {
    (if n < 10 then [] else Decimal(n / 10)) + [DigitOf(n % 10)]
  }

  function NumberOf(digits: string): nat
    requires forall i :: 0 <= i < |digits| ==> IsDigit(digits[i])
  {
    if digits == [] then 0
    else
      assert IsDigit(digits[|digits| - 1]);
      NumberOf(digits[..|digits| - 1]) * 10 + (digits[|digits| - 1] as int - '0' as int)
  }

  /** The first position from `i` on which is not a digit. */
  function DigitsEnd(s: string, i: nat): (e: nat)
    requires i <= |s|
    ensures i <= e <= |s| && (forall k :: i <= k < e ==> IsDigit(s[k])) && (e < |s| ==> !IsDigit(s[e]))
    decreases |s| - i
  {
    if i < |s| && IsDigit(s[i]) then DigitsEnd(s, i + 1) else i
  }

  function SpacesEnd(s: string, i: nat): (e: nat)
    requires i <= |s|
    ensures i <= e <= |s|
    decreases |s| - i
  {
    if i < |s| && IsSpace(s[i]) then SpacesEnd(s, i + 1) else i
  }

  const LONG_MAX := 0x7FFF_FFFF_FFFF_FFFF

  /** strtol() with base 10: the value and the position behind it, 0 if there is no number. */
  function Strtol(s: string): (r: (int, nat))
    ensures r.1 <= |s|
  {
    var start := SpacesEnd(s, 0);
    var signed := start < |s| && (s[start] == '-' || s[start] == '+');
    var first := if signed then start + 1 else start;
    var end := DigitsEnd(s, first);
    if end == first then (0, 0)
    else
      (Signed(NumberOf(s[first..end]), signed && s[start] == '-'), end)
  }

  /** The value of the digits as a `long`, which does not wrap around. */
  function Signed(n: nat, negative: bool): int {
    var value: int := n;
    if negative then (if value > LONG_MAX + 1 then -LONG_MAX - 1 else -value)
    else if value > LONG_MAX then LONG_MAX else value
  }

  const WORD := 0x1_0000_0000

  /** A number kept in 32 bits, and the same read as a signed one. */
  function Word(v: int): nat {
    v % WORD
  }

  function Signed32(v: int): (r: int)
    ensures -0x8000_0000 <= r < 0x8000_0000 && (r == v % WORD || r == v % WORD - WORD)
  {
    if Word(v) < WORD / 2 then Word(v) else Word(v) - WORD
  }

  lemma SmallNumber(v: nat)
    requires v < WORD / 2
    ensures Word(v) == Signed32(v) == v
  {
  }

  lemma {:induction false} NumberOfDecimal(n: nat)
    ensures NumberOf(Decimal(n)) == n
  {
    var s := Decimal(n);
    if n >= 10 {
      NumberOfDecimal(n / 10);
      assert s[..|s| - 1] == Decimal(n / 10);
    } else {
      assert s[..|s| - 1] == [];
    }
  }

  lemma {:induction false} DecimalIsInjective(m: nat, n: nat)
    requires Decimal(m) == Decimal(n)
    ensures m == n
  {
    NumberOfDecimal(m);
    NumberOfDecimal(n);
  }

  lemma {:induction false} DigitsEndAt(s: string, i: nat, e: nat)
    requires i <= e <= |s| && (forall k :: i <= k < e ==> IsDigit(s[k])) && (e < |s| ==> !IsDigit(s[e]))
    ensures DigitsEnd(s, i) == e
    decreases e - i
  {
    if i < e {
      DigitsEndAt(s, i + 1, e);
    }
  }

  /** A printed number is read back, whatever follows it. */
  lemma StrtolReadsDecimal(n: nat, rest: string)
    requires n <= LONG_MAX && (rest != [] ==> !IsDigit(rest[0]))
    ensures Strtol(Decimal(n) + rest) == (n, |Decimal(n)|)
  {
    NumberOfDecimal(n);
    StrtolReadsDigits(Decimal(n), rest);
  }

  lemma StrtolReadsDigits(d: string, rest: string)
    requires d != [] && (forall i :: 0 <= i < |d| ==> IsDigit(d[i])) && (rest != [] ==> !IsDigit(rest[0]))
    ensures Strtol(d + rest) == (Signed(NumberOf(d), false), |d|)
  {
    var s := d + rest;
    forall k | 0 <= k < |d|
      ensures IsDigit(s[k])
    {
      assert s[k] == d[k];
    }
    assert |d| < |s| ==> s[|d|] == rest[0];
    DigitsEndAt(s, 0, |d|);
    assert s[0..|d|] == d;
    assert SpacesEnd(s, 0) == 0;
  }

  lemma {:induction false} SpacesEndAt(s: string, i: nat, e: nat)
    requires i <= e <= |s| && (forall k :: i <= k < e ==> IsSpace(s[k])) && (e < |s| ==> !IsSpace(s[e]))
    ensures SpacesEnd(s, i) == e
    decreases e - i
  {
    if i < e {
      SpacesEndAt(s, i + 1, e);
    }
  }

  /** Where strtol() finds spaces, a sign and digits. */
  predicate InParts(s: string, start: nat, first: nat, end: nat) {
    && start <= first <= end <= |s|
    && (forall k :: 0 <= k < start ==> IsSpace(s[k])) && (start < |s| ==> !IsSpace(s[start]))
    && first == (if start < |s| && (s[start] == '-' || s[start] == '+') then start + 1 else start)
    && (forall k :: first <= k < end ==> IsDigit(s[k])) && (end < |s| ==> !IsDigit(s[end]))
  }

  /** So strtol() reads the number which the digits make. */
  lemma StrtolInParts(s: string, start: nat, first: nat, end: nat, d: string)
    requires InParts(s, start, first, end) && s[first..end] == d
    ensures Strtol(s) == if d == "" then (0, 0) else (Signed(NumberOf(d), first > start && s[start] == '-'), end)
  {
    SpacesEndAt(s, 0, start);
    DigitsEndAt(s, first, end);
  }

  /** A printed number, whatever its size. */
  lemma StrtolReadsAny(n: nat, rest: string)
    requires rest != [] ==> !IsDigit(rest[0])
    ensures Strtol(Decimal(n) + rest) == (if n <= LONG_MAX then n else LONG_MAX, |Decimal(n)|)
  {
    NumberOfDecimal(n);
    StrtolReadsDigits(Decimal(n), rest);
  }

  /** A number with a sign. */
  lemma StrtolReadsSigned(n: nat, sign: char)
    requires sign == '+' || sign == '-'
    ensures Strtol([sign] + Decimal(n)) == (Signed(n, sign == '-'), 1 + |Decimal(n)|)
    ensures Signed(n, true) == (if n <= LONG_MAX then 0 - n else -LONG_MAX - 1)
  {
    var d, s := Decimal(n), [sign] + Decimal(n);
    assert s[0] == sign && s[1..|s|] == d;
    assert forall k :: 1 <= k < |s| ==> s[k] == d[k - 1];
    StrtolInParts(s, 0, 1, |s|, d);
    NumberOfDecimal(n);
  }

  lemma StrtolReadsAll(n: nat)
    requires n <= LONG_MAX
    ensures Strtol(Decimal(n)) == (n, |Decimal(n)|)
  {
    var d := Decimal(n);
    assert d + "" == d;
    StrtolReadsDecimal(n, "");
  }

  /** The number of digits grows with the number. */
  lemma {:induction false} DecimalLength(n: nat)
    ensures n < 10 <==> |Decimal(n)| <= 1
    ensures n < 100 <==> |Decimal(n)| <= 2
    ensures n < 1000 <==> |Decimal(n)| <= 3
  {
    if n >= 10 {
      DecimalLength(n / 10);
    }
  }

  /** What snprintf() leaves in a buffer of `size` > 0 characters. */
  function Printed(text: string, size: nat): (r: string)
    requires size > 0
    ensures r <= text && |r| == if |text| < size then |text| else size - 1
  {
    if |text| < size then text else text[..size - 1]
  }

  /** strchr(): the position of the first `c` from `from` on, if there is one. */
  function IndexOf(s: string, c: char, from: nat): (r: Option<nat>)
    requires from <= |s|
    ensures r.Some? ==> from <= r.value < |s| && s[r.value] == c
    ensures forall k :: from <= k < (if r.Some? then r.value else |s|) ==> s[k] != c
    decreases |s| - from
  {
    if from == |s| then None
    else if s[from] == c then Some(from)
    else IndexOf(s, c, from + 1)
  }

  lemma {:induction false} IndexIs(s: string, c: char, from: nat, k: nat)
    requires from <= k < |s| && s[k] == c && forall j :: from <= j < k ==> s[j] != c
    ensures IndexOf(s, c, from) == Some(k)
    decreases k - from
  {
    if from < k {
      IndexIs(s, c, from + 1, k);
    }
  }

  lemma {:induction false} IndexIsNone(s: string, c: char, from: nat)
    requires from <= |s| && forall j :: from <= j < |s| ==> s[j] != c
    ensures IndexOf(s, c, from) == None
    decreases |s| - from
  {
    if from < |s| {
      IndexIsNone(s, c, from + 1);
    }
  }

  /** A name which may be an item of a list separated by spaces. */
  predicate IsWord(w: string) {
    w != [] && ' ' !in w
  }

  predicate AreWords(ws: seq<string>) {
    forall i :: 0 <= i < |ws| ==> IsWord(ws[i])
  }

  /** The items of a list separated by spaces, as the Configurator takes them. */
  function Words(s: string): seq<string>
    decreases |s|
  {
    var space := IndexOf(s, ' ', 0);
    if space.None? then (if s == [] then [] else [s])
    else (if space.value == 0 then [] else [s[..space.value]]) + Words(s[space.value + 1..])
  }

  /** No item is empty. */
  lemma {:induction false} ItemsAreWords(s: string)
    ensures AreWords(Words(s))
    decreases |s|
  {
    var space := IndexOf(s, ' ', 0);
    if space.Some? {
      ItemsAreWords(s[space.value + 1..]);
      WordsInParts(if space.value == 0 then [] else [s[..space.value]], Words(s[space.value + 1..]));
    }
  }

  lemma WordsInParts(a: seq<string>, b: seq<string>)
    requires AreWords(a) && AreWords(b)
    ensures AreWords(a + b)
  {
  }

  /** A space in front makes no difference. */
  lemma SpaceInFront(s: string)
    ensures Words(" " + s) == Words(s)
  {
    var t := " " + s;
    assert t[0] == ' ' && t[1..] == s;
  }

  lemma FirstWord(w: string, rest: string)
    requires IsWord(w)
    ensures Words(w + " " + rest) == [w] + Words(rest)
  {
    var s := w + " " + rest;
    var space := IndexOf(s, ' ', 0);
    assert s[|w|] == ' ' && forall i :: 0 <= i < |w| ==> s[i] == w[i];
    assert s[..|w|] == w && s[|w| + 1..] == rest;
  }

  /** The first `n` items, each followed by a space. */
  function Listing(ws: seq<string>, n: nat): string
    requires n <= |ws|
  {
    if n == 0 then "" else Listing(ws, n - 1) + (ws[n - 1] + " ")
  }

  lemma {:induction false} ListingGrows(ws: seq<string>, i: nat, n: nat)
    requires i <= n <= |ws|
    ensures |Listing(ws, i)| <= |Listing(ws, n)|
    decreases n - i
  {
    if i < n {
      ListingGrows(ws, i, n - 1);
    }
  }

  lemma TakeNext<T>(s: seq<T>, n: nat, rest: seq<T>)
    requires n < |s|
    ensures s[..n] + ([s[n]] + rest) == s[..n + 1] + rest
  {
  }

  /** A list gives back its items, in order. */
  lemma {:induction false} WordsOfListing(ws: seq<string>, n: nat, rest: string)
    requires n <= |ws| && AreWords(ws)
    ensures Words(Listing(ws, n) + rest) == ws[..n] + Words(rest)
  {
    if n == 0 {
      assert "" + rest == rest;
    } else {
      var w := ws[n - 1];
      calc {
        Words(Listing(ws, n) + rest);
        { assert Listing(ws, n) + rest == Listing(ws, n - 1) + (w + " " + rest); }
        Words(Listing(ws, n - 1) + (w + " " + rest));
        { WordsOfListing(ws, n - 1, w + " " + rest); }
        ws[..n - 1] + Words(w + " " + rest);
        { FirstWord(w, rest); }
        ws[..n - 1] + ([w] + Words(rest));
        { TakeNext(ws, n - 1, Words(rest)); }
        ws[..n] + Words(rest);
      }
    }
  }

  /** Items with a space between any two. */
  ghost function Joined(ws: seq<string>): string {
    if ws == [] then "" else Listing(ws, |ws| - 1) + ws[|ws| - 1]
  }

  lemma WordsOfJoined(ws: seq<string>)
    requires AreWords(ws)
    ensures Words(Joined(ws)) == ws
  {
    if ws != [] {
      var n := |ws| - 1;
      WordsOfListing(ws, n, ws[n]);
      OnlyWord(ws[n]);
      assert ws == ws[..n] + [ws[n]];
    }
  }

  lemma OnlyWord(w: string)
    requires IsWord(w)
    ensures Words(w) == [w]
  {
    var space := IndexOf(w, ' ', 0);
    assert space.None?;
  }

  // What truncation does to a list

  /** Printing one more item into the room which is left. */
  lemma PrintedItem(ws: seq<string>, i: nat, size: nat)
    requires size > 0 && i < |ws|
    ensures var list := Printed(Listing(ws, i), size);
            Printed(Listing(ws, i + 1), size) == list + Printed(ws[i] + " ", size - |list|)
  {
    PrintedConcat(Listing(ws, i), ws[i] + " ", size);
  }

  lemma PrintedConcat(a: string, b: string, size: nat)
    requires size > 0
    ensures Printed(a + b, size) == Printed(a, size) + Printed(b, size - |Printed(a, size)|)
  {
  }

  lemma {:induction false} ListingExtends(ws: seq<string>, i: nat, n: nat)
    requires i <= n <= |ws|
    ensures Listing(ws, i) <= Listing(ws, n)
    decreases n - i
  {
    if i < n {
      ListingExtends(ws, i, n - 1);
    }
  }

  /** How many of the first `n` items fit a buffer of `size` characters but for their last space. */
  function Fitting(ws: seq<string>, size: nat, n: nat): (k: nat)
    requires n <= |ws|
    ensures k <= n && |Listing(ws, k)| <= size && (k < n ==> size < |Listing(ws, k + 1)|)
  {
    if n == 0 || |Listing(ws, n)| <= size then n else Fitting(ws, size, n - 1)
  }

  lemma OneLimit(ws: seq<string>, size: nat, n: nat, k: nat)
    requires k < |ws| && |Listing(ws, k)| <= size < |Listing(ws, k + 1)|
    requires n <= |ws| && |Listing(ws, n)| <= size && (n < |ws| ==> size < |Listing(ws, n + 1)|)
    ensures n == k
  {
    if n < k {
      ListingGrows(ws, n + 1, k);
    } else if n > k {
      ListingGrows(ws, k + 1, n);
    }
  }

  lemma FittingIs(ws: seq<string>, size: nat, k: nat)
    requires k < |ws| && |Listing(ws, k)| <= size < |Listing(ws, k + 1)|
    ensures Fitting(ws, size, |ws|) == k
  {
    OneLimit(ws, size, Fitting(ws, size, |ws|), k);
  }

  /** What is left of the first item which does not fit. */
  function CutItem(ws: seq<string>, size: nat): (r: seq<string>)
    requires size > 0
    ensures |r| <= 1
  {
    var n := Fitting(ws, size, |ws|);
    var used := |Listing(ws, n)|;
    if n == |ws| || size - 1 <= used then [] else [ws[n][..size - 1 - used]]
  }

  lemma PrintedIs(text: string, size: nat, shown: string)
    requires shown <= text && |shown| + 1 == size <= |text|
    ensures Printed(text, size) == shown
  {
  }

  lemma LastSpace(ws: seq<string>, n: nat)
    requires 0 < n <= |ws|
    ensures Listing(ws, n) == (Listing(ws, n - 1) + ws[n - 1]) + " "
  {
  }

  lemma WithoutLastSpace(ws: seq<string>, n: nat)
    requires AreWords(ws) && n < |ws|
    ensures Words(Listing(ws, n) + ws[n]) == ws[..n + 1]
  {
    calc {
      Words(Listing(ws, n) + ws[n]);
      { WordsOfListing(ws, n, ws[n]); }
      ws[..n] + Words(ws[n]);
      { OnlyWord(ws[n]); }
      ws[..n] + [ws[n]];
      { assert [ws[n]] + [] == [ws[n]]; TakeNext(ws, n, []); }
      ws[..n + 1];
    }
  }

  /** The items which fit, of which the last one may have lost its space. */
  lemma FittingWords(ws: seq<string>, size: nat, n: nat)
    requires size > 0 && AreWords(ws) && n <= |ws| && |Listing(ws, n)| == size
    ensures Words(Printed(Listing(ws, |ws|), size)) == ws[..n] + []
  {
    var shown := Listing(ws, n - 1) + ws[n - 1];
    LastSpace(ws, n);
    assert shown <= Listing(ws, n);
    ListingExtends(ws, n, |ws|);
    PrintedIs(Listing(ws, |ws|), size, shown);
    WithoutLastSpace(ws, n - 1);
    assert ws[..n] + [] == ws[..n];
  }

  /** The items which fit, and a piece of the next one. */
  lemma PieceOfWord(ws: seq<string>, size: nat, n: nat, r: nat)
    requires AreWords(ws) && n < |ws| && 0 < r <= |ws[n]| && |Listing(ws, n)| + r + 1 == size
    ensures Words(Printed(Listing(ws, |ws|), size)) == ws[..n] + [ws[n][..r]]
  {
    var piece := ws[n][..r];
    var shown := Listing(ws, n) + piece;
    ListingExtends(ws, n + 1, |ws|);
    assert Listing(ws, n + 1) == shown + (ws[n][r..] + " ");
    PrintedIs(Listing(ws, |ws|), size, shown);
    WordsOfListing(ws, n, piece);
    OnlyWord(piece);
  }

  /** The items which fit with their spaces. */
  lemma WholeWords(ws: seq<string>, size: nat, n: nat)
    requires AreWords(ws) && n <= |ws| && |Listing(ws, n)| < size && (n == |ws| || |Listing(ws, n)| == size - 1)
    ensures Words(Printed(Listing(ws, |ws|), size)) == ws[..n] + []
  {
    ListingExtends(ws, n, |ws|);
    assert Printed(Listing(ws, |ws|), size) == Listing(ws, n) + "";
    WordsOfListing(ws, n, "");
  }

  /** A truncated list gives the items which fit, and possibly the beginning of one more. */
  lemma TruncatedWords(ws: seq<string>, size: nat)
    requires size > 0 && AreWords(ws)
    ensures Words(Printed(Listing(ws, |ws|), size)) == ws[..Fitting(ws, size, |ws|)] + CutItem(ws, size)
  {
    var n := Fitting(ws, size, |ws|);
    var used := |Listing(ws, n)|;
    if used == size {
      assert CutItem(ws, size) == [];
      FittingWords(ws, size, n);
    } else if n == |ws| || used == size - 1 {
      assert CutItem(ws, size) == [];
      WholeWords(ws, size, n);
    } else {
      PieceOfWord(ws, size, n, size - 1 - used);
    }
  }

  /** A truncated list still gives all its items as long as nothing but the last space is missing,
      and no longer. */
  lemma TruncatedList(ws: seq<string>, size: nat)
    requires size > 0 && AreWords(ws)
    ensures Words(Printed(Listing(ws, |ws|), size)) == ws <==> |Listing(ws, |ws|)| <= size
  {
    var n := Fitting(ws, size, |ws|);
    TruncatedWords(ws, size);
    if n == |ws| {
      assert ws[..n] + [] == ws;
    } else {
      assert CutItem(ws, size) == [] || |CutItem(ws, size)[0]| < |ws[n]|;
      assert n + 1 == |ws| && CutItem(ws, size) != [] ==> (ws[..n] + CutItem(ws, size))[n] != ws[n];
    }
  }

  /** The number which the first `r` digits of a number make. */
  function Leading(n: nat, r: nat): nat {
    if n < 10 || |Decimal(n)| <= r then n else Leading(n / 10, r)
  }

  /** A number which is cut off reads as another number. */
  lemma {:induction false} CutDecimal(n: nat, r: nat)
    requires 0 < r <= |Decimal(n)|
    ensures Decimal(n)[..r] == Decimal(Leading(n, r))
  {
    if r < |Decimal(n)| {
      CutDecimal(n / 10, r);
      assert Decimal(n)[..|Decimal(n)| - 1] == Decimal(n / 10);
    } else {
      assert Decimal(n)[..r] == Decimal(n);
    }
  }
}
