/** Linux CPU lists such as 0-3,5-7,23: the fscanf loop, and the lists the kernel prints. */
module CpuList {
  import opened Text

  // ---------- fscanf(fp, "%d%c", &cpu, &sep) ----------

  datatype Scanned = NoInt | Int(value: int, rest: string)

  /** The %d conversion; NoInt when there is no number to read. */
  function ScanInt(text: string): (r: Scanned)
    ensures r.Int? ==> |r.rest| < |text|
  {
    var s := SkipSpace(text);
    var negative := s != "" && s[0] == '-';
    var t := if s != "" && (s[0] == '-' || s[0] == '+') then s[1..] else s;
    var n := LeadingDigits(t);
    if n == 0 then NoInt
    else
      var value: int := Value(t[..n]);
      Int(if negative then -value else value, t[n..])
  }

  /** Parsed, or an exception escapes from at() or resize(). */
  datatype Outcome = Parsed(result: seq<bool>) | Thrown

  function Falses(n: nat): (v: seq<bool>)
    ensures |v| == n && forall i :: 0 <= i < n ==> !v[i]
  {
    seq(n, _ => false)
  }

  function Resize(v: seq<bool>, n: nat): (r: seq<bool>)
    ensures |r| == n && forall i :: 0 <= i < n ==> r[i] == (i < |v| && v[i])
  {
    if n <= |v| then v[..n] else v + Falses(n - |v|)
  }

  /** Sets the elements from .. to - 1. */
  function Fill(v: seq<bool>, from: nat, to: nat): (r: seq<bool>)
    requires to <= |v|
    ensures |r| == |v| && forall i :: 0 <= i < |v| ==> r[i] == (v[i] || from <= i < to)
  {
    seq(|v|, i requires 0 <= i < |v| => v[i] || from <= i < to)
  }

  /** The loop of parse_range from a given position, vector and pending range start (-1 for none).
      At the very end of a text without a final separator `sep` is indeterminate: junk. */
  function Loop(text: string, result: seq<bool>, start: int, junk: char): Outcome
    decreases |text|
  {
    var scanned := ScanInt(text);
    if scanned.NoInt? then Parsed(result)
    else
      var cpu, rest := scanned.value, scanned.rest;
      if cpu < -1 then Thrown
      else
        var sized := Resize(result, cpu + 1);
        var filled := if start >= 0 then Fill(sized, start, cpu + 1) else sized;
        var sep := if rest == "" then junk else rest[0];
        var more := if rest == "" then "" else rest[1..];
        if sep == '-' then Loop(more, filled, cpu, junk)
        else if cpu < 0 then Thrown
        else Loop(more, filled[cpu := true], -1, junk)
  }

  method ParseRange(text: string, initial: seq<bool>, junk: char) returns (outcome: Outcome)
    ensures outcome == Loop(text, initial, -1, junk)
  {
    hide ScanInt;
    var rest, result, startOfRange := text, initial, -1;
    while true
      invariant startOfRange >= -1
      invariant Loop(text, initial, -1, junk) == Loop(rest, result, startOfRange, junk)
      decreases |rest|
    {
      var scanned := ScanInt(rest);
      if scanned.NoInt? {
        return Parsed(result);
      }
      var cpu := scanned.value;
      if cpu < -1 {
        return Thrown;
      }
      var sized := Resize(result, cpu + 1);
      var filled := sized;
      if startOfRange >= 0 {
        var i := startOfRange;
        while i <= cpu
          invariant |filled| == |sized| == cpu + 1 && startOfRange <= i
          invariant forall j :: 0 <= j < |sized| ==> filled[j] == (sized[j] || startOfRange <= j < i)
        {
          filled := filled[i := true];
          i := i + 1;
        }
        assert filled == Fill(sized, startOfRange, cpu + 1);
      }
      var sep := if scanned.rest == "" then junk else scanned.rest[0];
      rest := if scanned.rest == "" then "" else scanned.rest[1..];
      if sep == '-' {
        result, startOfRange := filled, cpu;
      } else {
        if cpu < 0 {
          return Thrown;
        }
        result, startOfRange := filled[cpu := true], -1;
      }
    }
  }

  // ---------- lists of ranges ----------

  datatype Span = Span(lo: nat, hi: nat)

  type Range = s: Span | s.lo <= s.hi witness Span(0, 0)

  /** Ranges in ascending order, none below `from`, with at least `gap` numbers left out in between. */
  predicate Ascending(rs: seq<Range>, from: nat, gap: nat) {
    rs == [] || (from <= rs[0].lo && Ascending(rs[1..], rs[0].hi + 1 + gap, gap))
  }

  /** One range: its number, or its two numbers. */
  function Item(r: Range): string {
    Decimal(r.lo) + if r.lo < r.hi then "-" + Decimal(r.hi) else ""
  }

  /** The kernel's text of a list, with its newline. */
  function Listing(rs: seq<Range>): string {
    if rs == [] then "\n"
    else
      Item(rs[0]) + if |rs| == 1 then "\n" else "," + Listing(rs[1..])
  }

  /** The vector `acc` after one range: cut or extended to its end, with its elements set. */
  function Append(acc: seq<bool>, r: Range): (v: seq<bool>)
    ensures |v| == r.hi + 1 && v[r.hi]
    ensures forall i :: 0 <= i < |v| ==> v[i] == (r.lo <= i || (i < |acc| && acc[i]))
    ensures |acc| <= r.lo ==> acc <= v
  {
    Fill(Resize(acc, r.hi + 1), r.lo, r.hi + 1)
  }

  /** The vector `acc` after the ranges of a list. */
  function Extend(acc: seq<bool>, rs: seq<Range>): (v: seq<bool>)
    ensures rs != [] ==> |v| == rs[|rs| - 1].hi + 1 && v[|v| - 1]
    ensures Ascending(rs, |acc|, 0) ==> acc <= v && (rs != [] ==> |acc| < |v|)
    decreases |rs|
  {
    if rs == [] then acc
    else Extend(Append(acc, rs[0]), rs[1..])
  }

  predicate Covers(r: Range, i: nat) {
    r.lo <= i <= r.hi
  }

  predicate Member(rs: seq<Range>, i: nat) {
    exists j :: 0 <= j < |rs| && Covers(rs[j], i)
  }

  /** No range of the list from j on ends below i. */
  predicate NotCut(rs: seq<Range>, j: nat, i: nat) {
    forall k :: j <= k < |rs| ==> i <= rs[k].hi
  }

  /** Some range covers i, and no later one ends below it. */
  predicate Kept(rs: seq<Range>, i: nat) {
    exists j :: 0 <= j < |rs| && Covers(rs[j], i) && NotCut(rs, j + 1, i)
  }

  lemma NotCutSplit(rs: seq<Range>, j: nat, i: nat)
    requires rs != []
    ensures NotCut(rs, j + 1, i) <==> NotCut(rs[1..], j, i)
    ensures NotCut(rs, 0, i) <==> i <= rs[0].hi && NotCut(rs, 1, i)
  {
    assert forall k :: 0 < k < |rs| ==> rs[k] == rs[1..][k - 1];
    if NotCut(rs, j + 1, i) {
      forall k | j <= k < |rs[1..]| ensures i <= rs[1..][k].hi {
        assert i <= rs[k + 1].hi;
      }
    }
  }

  lemma KeptSplit(rs: seq<Range>, i: nat)
    requires rs != []
    ensures Kept(rs, i) <==> (Covers(rs[0], i) && NotCut(rs, 1, i)) || Kept(rs[1..], i)
  {
    var rest := rs[1..];
    if Kept(rs, i) {
      var j :| 0 <= j < |rs| && Covers(rs[j], i) && NotCut(rs, j + 1, i);
      if j > 0 {
        NotCutSplit(rs, j, i);
        assert Covers(rest[j - 1], i);
      }
    }
    if Kept(rest, i) {
      var j :| 0 <= j < |rest| && Covers(rest[j], i) && NotCut(rest, j + 1, i);
      NotCutSplit(rs, j + 1, i);
      assert Covers(rs[j + 1], i);
    }
  }

  /** The vector of any list, element by element: i is set exactly when some range covers it and no later
      one ends below it, or when it was set before and no range ends below it. */
  lemma {:induction false} ExtendHolds(acc: seq<bool>, rs: seq<Range>, i: nat)
    ensures var v := Extend(acc, rs);
            (i < |v| && v[i]) <==> Kept(rs, i) || (i < |acc| && acc[i] && NotCut(rs, 0, i))
    decreases |rs|
  {
    hide Append, Kept, NotCut;
    if rs == [] {
      EmptyList(i);
    } else {
      ExtendHolds(Append(acc, rs[0]), rs[1..], i);
      KeptSplit(rs, i);
      NotCutSplit(rs, 0, i);
    }
  }

  lemma EmptyList(i: nat)
    ensures !Kept([], i) && NotCut([], 0, i)
  {
  }

  /** Whatever a later range cuts off, a range after that one gives back. */
  ghost predicate CutsAreRestored(rs: seq<Range>) {
    forall j, k, i :: 0 <= j < k < |rs| && Covers(rs[j], i) && rs[k].hi < i ==> Member(rs[k + 1..], i)
  }

  lemma {:induction false} LastCover(rs: seq<Range>, i: nat, n: nat) returns (j: nat)
    requires n <= |rs| && exists k :: 0 <= k < n && Covers(rs[k], i)
    ensures j < n && Covers(rs[j], i) && forall k :: j < k < n ==> !Covers(rs[k], i)
  {
    if Covers(rs[n - 1], i) {
      j := n - 1;
    } else {
      j := LastCover(rs, i, n - 1);
    }
  }

  lemma LaterMember(rs: seq<Range>, k: nat, i: nat)
    requires k < |rs|
    ensures Member(rs[k + 1..], i) ==> exists l :: k < l < |rs| && Covers(rs[l], i)
  {
  }

  /** A list keeps all its members if and only if every cut is restored. */
  lemma MembersKeptIff(rs: seq<Range>)
    ensures (forall i: nat :: Kept(rs, i) <==> Member(rs, i)) <==> CutsAreRestored(rs)
  {
    if CutsAreRestored(rs) {
      forall i: nat | Member(rs, i) ensures Kept(rs, i) {
        var j := LastCover(rs, i, |rs|);
        forall k | j + 1 <= k < |rs| ensures i <= rs[k].hi {
          LaterMember(rs, k, i);
        }
        assert NotCut(rs, j + 1, i);
      }
    }
    if forall i: nat :: Kept(rs, i) <==> Member(rs, i) {
      forall j, k, i | 0 <= j < k < |rs| && Covers(rs[j], i) && rs[k].hi < i ensures Member(rs[k + 1..], i) {
        assert Member(rs, i);
        var l :| 0 <= l < |rs| && Covers(rs[l], i) && NotCut(rs, l + 1, i);
        assert l > k;
        assert Covers(rs[k + 1..][l - k - 1], i);
      }
    }
  }

  // ---------- parsing a listing ----------

  lemma ScanDecimal(n: nat, rest: string)
    requires rest != "" && !IsDigit(rest[0])
    ensures ScanInt(Decimal(n) + rest) == Int(n, rest)
  {
    var d := Decimal(n);
    var text := d + rest;
    assert IsDigit(text[0]) && SkipSpace(text) == text;
    LeadingDigitsOf(d, rest);
    ValueOfDecimal(n);
    assert text[..|d|] == d && text[|d|..] == rest;
  }

  /** One turn of the loop on a number followed by a separator. */
  lemma LoopOnNumber(n: nat, sep: char, more: string, result: seq<bool>, start: int, junk: char)
    requires !IsDigit(sep)
    ensures var filled := if start >= 0 then Fill(Resize(result, n + 1), start, n + 1) else Resize(result, n + 1);
            Loop(Decimal(n) + [sep] + more, result, start, junk)
            == if sep == '-' then Loop(more, filled, n, junk) else Loop(more, filled[n := true], -1, junk)
  {
    hide ScanInt;
    assert Decimal(n) + [sep] + more == Decimal(n) + ([sep] + more);
    ScanDecimal(n, [sep] + more);
    assert ([sep] + more)[1..] == more;
  }

  /** One turn or two of the loop: a whole range. */
  lemma LoopOnRange(r: Range, sep: char, more: string, acc: seq<bool>, junk: char)
    requires !IsDigit(sep) && sep != '-'
    ensures Loop(Item(r) + [sep] + more, acc, -1, junk)
            == Loop(more, Append(acc, r), -1, junk)
  {
    hide Loop, Decimal, IsDigit;
    var next := Append(acc, r);
    var sized := Resize(acc, r.lo + 1);
    if r.lo < r.hi {
      assert !IsDigit('-') by { NotDigits(); }
      var second := Decimal(r.hi) + [sep] + more;
      assert Decimal(r.lo) + ("-" + Decimal(r.hi)) + [sep] + more == Decimal(r.lo) + ['-'] + second;
      LoopOnNumber(r.lo, '-', second, acc, -1, junk);
      LoopOnNumber(r.hi, sep, more, sized, r.lo, junk);
      assert Fill(Resize(sized, r.hi + 1), r.lo, r.hi + 1)[r.hi := true] == next;
    } else {
      assert Decimal(r.lo) + "" + [sep] + more == Decimal(r.lo) + [sep] + more;
      LoopOnNumber(r.lo, sep, more, acc, -1, junk);
      assert sized[r.lo := true] == next;
    }
  }

  lemma NotDigits()
    ensures !IsDigit('-') && !IsDigit(',') && !IsDigit('\n')
  {
  }

  /** Parsing the text of any list of ranges, in any order, gives its vector: the pending range start
      never leaks from one range into the next. */
  lemma {:induction false} ParseListing(rs: seq<Range>, acc: seq<bool>, junk: char)
    ensures Loop(Listing(rs), acc, -1, junk) == Parsed(Extend(acc, rs))
    decreases |rs|
  {
    if rs == [] {
      assert SkipSpace("\n") == "";
    } else {
      hide Loop, Item, IsDigit, Append;
      NotDigits();
      if |rs| == 1 {
        assert Listing(rs) == Item(rs[0]) + ['\n'] + "";
        LoopOnRange(rs[0], '\n', "", acc, junk);
        EmptyText(Append(acc, rs[0]), junk);
        assert rs[1..] == [];
      } else {
        assert Listing(rs) == Item(rs[0]) + [','] + Listing(rs[1..]);
        LoopOnRange(rs[0], ',', Listing(rs[1..]), acc, junk);
        ParseListing(rs[1..], Append(acc, rs[0]), junk);
      }
    }
  }

  lemma EmptyText(result: seq<bool>, junk: char)
    ensures Loop("", result, -1, junk) == Parsed(result)
  {
  }

  // ---------- printing a vector ----------

  /** The first set element at or after i, or |v|. */
  function NextTrue(v: seq<bool>, i: nat): (a: nat)
    requires i <= |v|
    ensures i <= a <= |v| && (a < |v| ==> v[a]) && forall j :: i <= j < a ==> !v[j]
    decreases |v| - i
  {
    if i == |v| || v[i] then i else NextTrue(v, i + 1)
  }

  /** The first clear element at or after i, or |v|. */
  function NextFalse(v: seq<bool>, i: nat): (b: nat)
    requires i <= |v|
    ensures i <= b <= |v| && (b < |v| ==> !v[b]) && forall j :: i <= j < b ==> v[j]
    decreases |v| - i
  {
    if i == |v| || !v[i] then i else NextFalse(v, i + 1)
  }

  /** The maximal ranges of v from i on. */
  function RangesOf(v: seq<bool>, i: nat): (rs: seq<Range>)
    requires i <= |v|
    ensures Ascending(rs, i, 1)
    decreases |v| - i
  {
    var a := NextTrue(v, i);
    if a == |v| then []
    else
      var b := NextFalse(v, a);
      if b == |v| then [Span(a, b - 1)] else [Span(a, b - 1)] + RangesOf(v, b + 1)
  }

  lemma {:induction false} GapsMayClose(rs: seq<Range>, from: nat, from': nat)
    requires Ascending(rs, from, 1) && from' <= from
    ensures Ascending(rs, from', 0)
    decreases |rs|
  {
    if rs != [] {
      GapsMayClose(rs[1..], rs[0].hi + 2, rs[0].hi + 1);
    }
  }

  lemma AppendFirstRange(v: seq<bool>, i: nat, k: nat)
    requires k <= i <= |v| && (forall j :: k <= j < i ==> !v[j]) && NextTrue(v, i) < |v|
    ensures var a := NextTrue(v, i); Append(v[..k], Span(a, NextFalse(v, a) - 1)) == v[..NextFalse(v, a)]
  {
  }

  /** Extending a prefix of v by the ranges left in v gives v back. */
  lemma {:induction false} ExtendByRangesOf(v: seq<bool>, i: nat, k: nat)
    requires k <= i <= |v| && (v == [] || v[|v| - 1]) && forall j :: k <= j < i ==> !v[j]
    requires k < |v| ==> i < |v|
    ensures Extend(v[..k], RangesOf(v, i)) == v
    decreases |v| - i
  {
    hide NextTrue, NextFalse, Append, Ascending, Extend, RangesOf;
    var a := NextTrue(v, i);
    ExtendNothing(v);
    if a < |v| {
      var b := NextFalse(v, a);
      AppendFirstRange(v, i, k);
      RangesFrom(v, i, Span(a, b - 1));
      ExtendFirst(v[..k], RangesOf(v, i));
      if b < |v| {
        ExtendByRangesOf(v, b + 1, b);
      } else {
        assert v[..b] == v;
      }
    } else {
      NothingLeft(v, i);
      assert v[..k] == v;
    }
  }

  /** Parsing undoes printing exactly for the vectors that are empty or end in a set element. */
  lemma ParseUndoesPrintIff(v: seq<bool>, junk: char)
    ensures Loop(Listing(RangesOf(v, 0)), [], -1, junk) == Parsed(v) <==> v == [] || v[|v| - 1]
  {
    hide Loop, Listing, RangesOf, Extend, Append;
    var rs := RangesOf(v, 0);
    ParseListing(rs, [], junk);
    ExtendNothing([]);
    if v == [] || v[|v| - 1] {
      ExtendByRangesOf(v, 0, 0);
      assert v[..0] == [];
    }
  }

  /** So a list parses to exactly its members if and only if every cut is restored; ascending lists
      cut nothing. */
  lemma ParsesToItsMembersIff(rs: seq<Range>, junk: char)
    ensures Loop(Listing(rs), [], -1, junk).Parsed?
    ensures var v := Loop(Listing(rs), [], -1, junk).result;
            (forall i: nat :: (i < |v| && v[i]) <==> Member(rs, i)) <==> CutsAreRestored(rs)
    ensures Ascending(rs, 0, 0) ==> CutsAreRestored(rs)
  {
    hide Loop, Listing, Extend, Kept, Member, CutsAreRestored, NotCut;
    ParseListing(rs, [], junk);
    MembersKeptIff(rs);
    forall i: nat {
      ExtendHolds([], rs, i);
    }
    if Ascending(rs, 0, 0) {
      AscendingCutsNothing(rs, 0);
    }
  }

  lemma {:induction false} AscendingCutsNothing(rs: seq<Range>, from: nat)
    requires Ascending(rs, from, 0)
    ensures forall j, k :: 0 <= j < k < |rs| ==> rs[j].hi < rs[k].hi
    ensures forall j :: 0 <= j < |rs| ==> from <= rs[j].hi
    ensures CutsAreRestored(rs)
    decreases |rs|
  {
    if rs != [] {
      AscendingCutsNothing(rs[1..], rs[0].hi + 1);
      assert forall j :: 1 <= j < |rs| ==> rs[j] == rs[1..][j - 1];
    }
  }

  /** A smaller number after a larger one cuts the vector back. */
  lemma DescendingListIsCut(a: nat, b: nat, junk: char)
    requires b < a
    ensures Loop(Decimal(a) + [','] + (Decimal(b) + ['\n'] + ""), [], -1, junk) == Parsed(Falses(b) + [true])
  {
    hide Decimal, Loop;
    LoopOnNumber(a, ',', Decimal(b) + ['\n'] + "", [], -1, junk);
    var first := Resize([], a + 1)[a := true];
    LoopOnNumber(b, '\n', "", first, -1, junk);
    assert Resize(first, b + 1)[b := true] == Falses(b) + [true];
    EmptyText(Falses(b) + [true], junk);
  }

  /** A range that runs backwards sets its end alone. */
  lemma BackwardRangeIsItsEnd(a: nat, b: nat, junk: char)
    requires b < a
    ensures Loop(Decimal(a) + ['-'] + (Decimal(b) + ['\n'] + ""), [], -1, junk) == Parsed(Falses(b) + [true])
  {
    hide Decimal, Loop;
    LoopOnNumber(a, '-', Decimal(b) + ['\n'] + "", [], -1, junk);
    var first := Resize([], a + 1);
    LoopOnNumber(b, '\n', "", first, a, junk);
    assert Fill(Resize(first, b + 1), a, b + 1)[b := true] == Falses(b) + [true];
    EmptyText(Falses(b) + [true], junk);
  }

  /** A text written out. */
  lemma KernelText(junk: char)
    ensures var outcome := Loop("0-3,5-7,23\n", [], -1, junk);
            && outcome.Parsed? && |outcome.result| == 24
            && forall i :: 0 <= i < 24 ==> outcome.result[i] == (i <= 3 || 5 <= i <= 7 || i == 23)
  {
    hide Loop, Extend, Kept, Listing;
    var rs: seq<Range> := [Span(0, 3), Span(5, 7), Span(23, 23)];
    KernelTextIsListing(rs);
    ParseListing(rs, [], junk);
    forall i: nat | i < 24 ensures Extend([], rs)[i] == (i <= 3 || 5 <= i <= 7 || i == 23) {
      KeptOfThree(rs, i);
      ExtendHolds([], rs, i);
    }
  }

  lemma KernelTextIsListing(rs: seq<Range>)
    requires rs == [Span(0, 3), Span(5, 7), Span(23, 23)]
    ensures Listing(rs) == "0-3,5-7,23\n"
  {
    assert Item(rs[0]) == "0-3" && Item(rs[1]) == "5-7" && Item(rs[2]) == "23";
    hide Item, Listing;
    ThreeItems(rs);
  }

  lemma ThreeItems(rs: seq<Range>)
    requires |rs| == 3
    ensures Listing(rs) == Item(rs[0]) + "," + Item(rs[1]) + "," + Item(rs[2]) + "\n"
  {
    hide Item;
    assert Listing(rs[2..]) == Item(rs[2]) + "\n";
    assert rs[1..][1..] == rs[2..];
  }

  lemma KeptOfThree(rs: seq<Range>, i: nat)
    requires |rs| == 3 && rs[0].hi < rs[1].lo && rs[1].hi < rs[2].lo
    ensures Kept(rs, i) <==> Covers(rs[0], i) || Covers(rs[1], i) || Covers(rs[2], i)
  {
    if Covers(rs[0], i) {
      assert NotCut(rs, 1, i);
    }
    if Covers(rs[1], i) {
      assert NotCut(rs, 2, i);
    }
    if Covers(rs[2], i) {
      assert NotCut(rs, 3, i);
    }
  }

  // ---------- other texts ----------

  /** A negative number throws, except -1 as the start of a range, which empties the vector and is forgotten. */
  lemma NegativeNumber(n: nat, sep: char, more: string, result: seq<bool>, start: int, junk: char)
    requires n > 0 && start >= -1 && !IsDigit(sep)
    ensures Loop("-" + Decimal(n) + [sep] + more, result, start, junk)
            == if n == 1 && sep == '-' then Loop(more, [], -1, junk) else Thrown
  {
    var d := Decimal(n);
    var text := "-" + d + [sep] + more;
    assert SkipSpace(text) == text && text[1..] == d + ([sep] + more);
    LeadingDigitsOf(d, [sep] + more);
    ValueOfDecimal(n);
    assert (d + ([sep] + more))[..|d|] == d && (d + ([sep] + more))[|d|..] == [sep] + more;
    assert ScanInt(text) == Int(0 - n, [sep] + more);
    assert ([sep] + more)[1..] == more;
    hide ScanInt;
    if n == 1 {
      assert Resize(result, 0) == [];
      if start >= 0 {
        assert Fill([], start, 0) == [];
      }
    }
  }

  /** White space before a number is skipped, and any other character ends the list. */
  lemma OtherCharacter(c: char, more: string, result: seq<bool>, start: int, junk: char)
    requires start >= -1 && !IsDigit(c) && c != '-' && c != '+'
    ensures Loop([c] + more, result, start, junk)
            == if IsSpace(c) then Loop(more, result, start, junk) else Parsed(result)
  {
    hide Loop, ScanInt;
    ScanOther(c, more);
    LoopByScan([c] + more, more, result, start, junk);
  }

  /** A text counts only through the number read from it. */
  lemma LoopByScan(a: string, b: string, result: seq<bool>, start: int, junk: char)
    requires start >= -1
    ensures ScanInt(a) == ScanInt(b) ==> Loop(a, result, start, junk) == Loop(b, result, start, junk)
    ensures ScanInt(a) == NoInt ==> Loop(a, result, start, junk) == Parsed(result)
  {
    hide ScanInt, Resize, Fill;
  }

  lemma ScanOther(c: char, more: string)
    requires !IsDigit(c) && c != '-' && c != '+'
    ensures ScanInt([c] + more) == if IsSpace(c) then ScanInt(more) else NoInt
  {
    var text := [c] + more;
    assert text[1..] == more;
    SkipOne(c, more);
    hide Value, SkipSpace;
  }

  lemma SkipOne(c: char, more: string)
    ensures SkipSpace([c] + more) == if IsSpace(c) then SkipSpace(more) else [c] + more
  {
    assert ([c] + more)[1..] == more;
  }

  lemma RangeFound(v: seq<bool>, i: nat, r: Range)
    requires i <= r.lo <= r.hi < |v| && (r.hi + 1 < |v| ==> !v[r.hi + 1])
    requires forall j :: i <= j <= r.hi ==> v[j] == (r.lo <= j)
    ensures NextTrue(v, i) == r.lo && NextFalse(v, r.lo) == r.hi + 1
  {
    hide NextTrue, NextFalse;
    assert v[r.lo] && v[r.hi];
    var a := NextTrue(v, i);
    assert a == r.lo;
    var b := NextFalse(v, a);
    assert b == r.hi + 1;
  }

  lemma ExtendFirst(acc: seq<bool>, rs: seq<Range>)
    requires rs != []
    ensures Ascending(rs, |acc|, 0) ==> |acc| <= rs[0].lo && Ascending(rs[1..], rs[0].hi + 1, 0)
    ensures Extend(acc, rs) == Extend(Append(acc, rs[0]), rs[1..])
  {
    hide Append;
  }

  lemma ExtendNothing(acc: seq<bool>)
    ensures Ascending([], |acc|, 0) && Extend(acc, []) == acc
  {
  }

  lemma GapIsClear(acc: seq<bool>, rs: seq<Range>)
    requires rs != [] && Ascending(rs, |acc| + 1, 1) && Ascending(rs, |acc|, 0)
    ensures |acc| < |Extend(acc, rs)| && !Extend(acc, rs)[|acc|]
  {
  }

  /** The first range of a list with gaps is a maximal run of its vector. */
  lemma FirstRangeIsMaximal(acc: seq<bool>, rs: seq<Range>, i: nat)
    requires rs != [] && Ascending(rs, i, 1) && |acc| <= i && Ascending(rs, |acc|, 0)
    ensures var v := Extend(acc, rs);
            && rs[0].hi < |v| && (rs[0].hi + 1 < |v| ==> !v[rs[0].hi + 1])
            && forall j :: i <= j <= rs[0].hi ==> v[j] == (rs[0].lo <= j)
  {
    hide Append, Extend;
    assert Ascending(rs[1..], rs[0].hi + 2, 1);
    hide Ascending;
    ExtendFirst(acc, rs);
    var next, rest := Append(acc, rs[0]), rs[1..];
    if rest == [] {
      ExtendNothing(next);
    } else {
      GapIsClear(next, rest);
    }
    forall j | i <= j <= rs[0].hi ensures Extend(next, rest)[j] == (rs[0].lo <= j) {
      assert Extend(next, rest)[j] == next[j];
    }
  }

  /** The first maximal range of v, and those after it. */
  lemma RangesFrom(v: seq<bool>, i: nat, r: Range)
    requires i <= r.lo <= r.hi < |v| && NextTrue(v, i) == r.lo && NextFalse(v, r.lo) == r.hi + 1
    ensures RangesOf(v, i) == if r.hi + 1 == |v| then [r] else [r] + RangesOf(v, r.hi + 2)
  {
  }

  lemma AscendingTail(rs: seq<Range>, from: nat, gap: nat)
    requires rs != [] && Ascending(rs, from, gap)
    ensures from <= rs[0].lo && Ascending(rs[1..], rs[0].hi + 1 + gap, gap)
  {
  }

  /** The maximal ranges of the vector of a list with gaps are the list. */
  lemma {:induction false} RangesOfExtend(acc: seq<bool>, rs: seq<Range>, i: nat)
    requires Ascending(rs, i, 1) && |acc| <= i <= |acc| + 1
    requires Ascending(rs, |acc|, 0) && i <= |Extend(acc, rs)|
    ensures RangesOf(Extend(acc, rs), i) == rs
    decreases |rs|
  {
    hide NextTrue, NextFalse, Append, Extend, RangesOf, Ascending;
    var v := Extend(acc, rs);
    if rs == [] {
      ExtendNothing(acc);
      NothingLeft(v, i);
    } else {
      var r, rest := rs[0], rs[1..];
      AscendingTail(rs, i, 1);
      ExtendFirst(acc, rs);
      FirstRangeIsMaximal(acc, rs, i);
      RangeFound(v, i, r);
      RangesFrom(v, i, r);
      if rest == [] {
        ExtendNothing(Append(acc, r));
      } else {
        RangesOfExtend(Append(acc, r), rest, r.hi + 2);
      }
      assert rs == [r] + rest;
    }
  }

  lemma NothingLeft(v: seq<bool>, i: nat)
    requires |v| <= i <= |v| + 1 && i <= |v|
    ensures RangesOf(v, i) == []
  {
  }

  /** Printing undoes parsing, for every canonical text: ascending ranges with gaps, as the kernel prints. */
  lemma PrintUndoesParse(rs: seq<Range>, junk: char)
    requires Ascending(rs, 0, 1)
    ensures var outcome := Loop(Listing(rs), [], -1, junk);
            outcome.Parsed? && Listing(RangesOf(outcome.result, 0)) == Listing(rs)
  {
    GapsMayClose(rs, 0, 0);
    ParseListing(rs, [], junk);
    RangesOfExtend([], rs, 0);
  }
}
