/** /proc/[pid]/stat (proc(5)), whose comm field may contain anything, and the cgroup's cpu.stat. */
module PidStat {
  import opened Text

  datatype ProcessTimes = ProcessTimes(uTime: u64, sTime: u64)

  const UTIME_INDEX := 11
  const STIME_INDEX := 12
  const RSS_INDEX := 21

  // ---------- the standard functions used ----------

  /** One past the last position of c; 0 when c does not occur. */
  function AfterLast(s: string, c: char): (n: nat)
    ensures n <= |s| && (n > 0 ==> s[n - 1] == c)
    ensures forall k :: n <= k < |s| ==> s[k] != c
  {
    if s == "" then 0
    else if s[|s| - 1] == c then |s|
    else
      var n := AfterLast(s[..|s| - 1], c);
      assert forall k :: n <= k < |s| - 1 ==> s[k] == s[..|s| - 1][k];
      n
  }

  /** The pieces between single spaces. */
  function Split(s: string): (pieces: seq<string>)
    ensures pieces != []
    decreases |s|
  {
    var i := IndexOf(s, ' ');
    if i == |s| then [s] else [s[..i]] + Split(s[i + 1..])
  }

  predicate Blank(s: string) {
    forall i :: 0 <= i < |s| ==> IsSpace(s[i])
  }

  function WithoutBlanks(pieces: seq<string>): seq<string> {
    if pieces == [] then []
    else (if Blank(pieces[0]) then [] else [pieces[0]]) + WithoutBlanks(pieces[1..])
  }

  /** std::stoul: None where it throws; a minus sign wraps around. */
  function Stoul(s: string): Option<u64> {
    var t := SkipSpace(s);
    var negative := t != "" && t[0] == '-';
    var d := if t != "" && (t[0] == '-' || t[0] == '+') then t[1..] else t;
    var n := LeadingDigits(d);
    if n == 0 || Value(d[..n]) >= U64 then None
    else if negative then Some((U64 - Value(d[..n])) % U64) else Some(Value(d[..n]))
  }

  // ---------- the parsers ----------

  /** The tokens after the last ')'; None when there is none. */
  function TokenizePostComm(statLine: string): Option<seq<string>> {
    var n := AfterLast(statLine, ')');
    if n == 0 then None else Some(WithoutBlanks(Split(statLine[n..])))
  }

  function ParseProcessTimes(pidStats: seq<string>): Option<ProcessTimes> {
    if pidStats == [] then None  // at(0) throws
    else
      var tokens := TokenizePostComm(pidStats[0]);
      if tokens.None? || |tokens.value| <= STIME_INDEX then None
      else
        var uTime, sTime := Stoul(tokens.value[UTIME_INDEX]), Stoul(tokens.value[STIME_INDEX]);
        if uTime.None? || sTime.None? then None else Some(ProcessTimes(uTime.value, sTime.value))
  }

  function ParseRss(pidStats: seq<string>): Option<u64> {
    if pidStats == [] then None
    else
      var tokens := TokenizePostComm(pidStats[0]);
      if tokens.None? || |tokens.value| <= RSS_INDEX then None else Stoul(tokens.value[RSS_INDEX])
  }

  // ---------- the kernel's line ----------

  function Join(fields: seq<string>): string
    requires fields != []
  {
    if |fields| == 1 then fields[0] else fields[0] + " " + Join(fields[1..])
  }

  /** pid (comm) state ppid ... */
  function StatLine(pid: nat, comm: string, fields: seq<string>): string
    requires fields != []
  {
    Decimal(pid) + " (" + comm + ")" + (" " + Join(fields))
  }

  /** A field after comm: not empty, no white space, no ')'. Every field of proc(5) is one. */
  predicate IsField(s: string) {
    s != "" && forall i :: 0 <= i < |s| ==> !IsSpace(s[i]) && s[i] != ')'
  }

  lemma {:induction false} AfterLastInPrefix(prefix: string, c: char, tail: string)
    requires c !in tail
    ensures AfterLast(prefix + [c] + tail, c) == |prefix| + 1
  {
    var s := prefix + [c] + tail;
    if tail == "" {
      assert s[|s| - 1] == c;
    } else {
      var shorter := tail[..|tail| - 1];
      AfterLastInPrefix(prefix, c, shorter);
      assert s[..|s| - 1] == prefix + [c] + shorter;
      assert s[|s| - 1] == tail[|tail| - 1] && tail[|tail| - 1] in tail;
    }
  }

  lemma {:induction false} JoinHasNoParen(fields: seq<string>)
    requires fields != [] && forall f :: f in fields ==> IsField(f)
    ensures ')' !in Join(fields)
  {
    assert IsField(fields[0]);
    if |fields| > 1 {
      JoinHasNoParen(fields[1..]);
    }
  }

  lemma IndexOfAfter(head: string, c: char, tail: string)
    requires c !in head
    ensures IndexOf(head + [c] + tail, c) == |head|
  {
    hide IndexOf;
    var s := head + [c] + tail;
    assert s[|head|] == c;
    assert forall k :: 0 <= k < |head| ==> s[k] == head[k];
  }

  lemma {:induction false} SplitJoin(fields: seq<string>)
    requires fields != [] && forall f :: f in fields ==> IsField(f)
    ensures Split(Join(fields)) == fields
  {
    var f := fields[0];
    assert IsField(f) && ' ' !in f;
    if |fields| == 1 {
      assert IndexOf(f, ' ') == |f|;
    } else {
      var rest := Join(fields[1..]);
      SplitJoin(fields[1..]);
      assert Join(fields) == f + [' '] + rest;
      IndexOfAfter(f, ' ', rest);
      assert (f + [' '] + rest)[..|f|] == f && (f + [' '] + rest)[|f| + 1..] == rest;
    }
  }

  lemma {:induction false} FieldsAreKept(fields: seq<string>)
    requires forall f :: f in fields ==> IsField(f)
    ensures WithoutBlanks(fields) == fields
  {
    if fields != [] {
      assert IsField(fields[0]) && !IsSpace(fields[0][0]);
      FieldsAreKept(fields[1..]);
    }
  }

  /** The tail of the line: a space, then the fields. */
  lemma TailTokens(fields: seq<string>)
    requires fields != [] && forall f :: f in fields ==> IsField(f)
    ensures WithoutBlanks(Split(" " + Join(fields))) == fields
  {
    hide Join, IsField, Blank;
    var joined := Join(fields);
    var tail := " " + joined;
    IndexOfAfter("", ' ', joined);
    assert tail == "" + [' '] + joined && tail[1..] == joined && tail[..0] == "";
    SplitJoin(fields);
    assert Split(tail) == [""] + fields && ([""] + fields)[1..] == fields;
    assert Blank("") by { EmptyIsBlank(); }
    FieldsAreKept(fields);
  }

  lemma EmptyIsBlank()
    ensures Blank("")
  {
  }

  /** Whatever comm is (spaces, parentheses, anything), the tokens are exactly the fields after it. */
  lemma TokensAreTheFields(pid: nat, comm: string, fields: seq<string>)
    requires fields != [] && forall f :: f in fields ==> IsField(f)
    ensures TokenizePostComm(StatLine(pid, comm, fields)) == Some(fields)
  {
    hide Split, WithoutBlanks, Join, IsField, AfterLast;
    var prefix, tail := Decimal(pid) + " (" + comm, " " + Join(fields);
    var line := StatLine(pid, comm, fields);
    assert line == prefix + [')'] + tail && line[|prefix| + 1..] == tail;
    JoinHasNoParen(fields);
    assert ')' !in tail;
    AfterLastInPrefix(prefix, ')', tail);
    TailTokens(fields);
  }

  lemma StoulOfDecimal(n: nat)
    ensures Stoul(Decimal(n)) == if n < U64 then Some(n) else None
  {
    StoulStops(n, "");
    assert Decimal(n) + "" == Decimal(n);
  }

  lemma DigitsStop(n: nat, rest: string)
    requires rest == "" || !IsDigit(rest[0])
    ensures var text := Decimal(n) + rest; var k := LeadingDigits(text);
            k > 0 && Value(text[..k]) == n && text != "" && IsDigit(text[0])
  {
    var s := Decimal(n);
    LeadingDigitsOf(s, rest);
    assert (s + rest)[..|s|] == s;
    ValueOfDecimal(n);
  }

  /** What follows the number is left unread. */
  lemma StoulStops(n: nat, rest: string)
    requires rest == "" || !IsDigit(rest[0])
    ensures Stoul(Decimal(n) + rest) == if n < U64 then Some(n) else None
  {
    hide Value, LeadingDigits, Decimal;
    DigitsStop(n, rest);
    var text := Decimal(n) + rest;
    assert SkipSpace(text) == text;
  }

  /** A minus sign negates modulo 2^64. */
  lemma StoulNegates(n: nat, rest: string)
    requires rest == "" || !IsDigit(rest[0])
    ensures Stoul("-" + (Decimal(n) + rest)) == if n < U64 then Some((U64 - n) % U64) else None
  {
    hide Value, LeadingDigits, Decimal;
    DigitsStop(n, rest);
    var text := "-" + (Decimal(n) + rest);
    assert SkipSpace(text) == text && text[1..] == Decimal(n) + rest;
  }

  /** A line written out: the name of the process is "a) b". */
  lemma CommWithParenthesis()
    ensures TokenizePostComm("7 (a) b) S 1") == Some(["S", "1"])
  {
    hide TokenizePostComm;
    var fields := ["S", "1"];
    assert Decimal(7) == "7";
    assert Join(fields) == "S 1" by { JoinOfTwo("S", "1"); }
    assert StatLine(7, "a) b", fields) == "7 (a) b) S 1";
    TokensAreTheFields(7, "a) b", fields);
  }

  lemma JoinOfTwo(a: string, b: string)
    ensures Join([a, b]) == a + " " + b
  {
  }

  /** Parsing a formatted line returns the printed utime and stime (fields 14 and 15 of proc(5), where comm
      is field 2), independent of comm; a line with too few fields, or a number beyond 64 bits, is refused. */
  lemma TimesRoundTrip(pid: nat, comm: string, fields: seq<string>, uTime: nat, sTime: nat)
    requires fields != [] && forall f :: f in fields ==> IsField(f)
    requires |fields| >= 15 - 2 ==> fields[14 - 3] == Decimal(uTime) && fields[15 - 3] == Decimal(sTime)
    ensures ParseProcessTimes([StatLine(pid, comm, fields)])
            == if |fields| >= 15 - 2 && uTime < U64 && sTime < U64 then Some(ProcessTimes(uTime, sTime)) else None
  {
    TokensAreTheFields(pid, comm, fields);
    StoulOfDecimal(uTime);
    StoulOfDecimal(sTime);
  }

  /** The same for rss, field 24. */
  lemma RssRoundTrip(pid: nat, comm: string, fields: seq<string>, rss: nat)
    requires fields != [] && forall f :: f in fields ==> IsField(f)
    requires |fields| >= 24 - 2 ==> fields[24 - 3] == Decimal(rss)
    ensures ParseRss([StatLine(pid, comm, fields)]) == if |fields| >= 24 - 2 && rss < U64 then Some(rss) else None
  {
    TokensAreTheFields(pid, comm, fields);
    StoulOfDecimal(rss);
  }

  // ---------- cpu.stat ----------

  const USAGE_KEY := "usage_usec"

  function Tokens(line: string): seq<string> {
    WithoutBlanks(Split(line))
  }

  /** A line whose first token is the key itself, with a value token after it. */
  predicate IsUsageLine(line: string) {
    |Tokens(line)| >= 2 && Tokens(line)[0] == USAGE_KEY
  }

  /** The value of the first usage line, None without one or when its value cannot be read. */
  method ParseCgroupCpuStat(lines: seq<string>) returns (usage: Option<u64>)
    ensures forall i :: 0 <= i < |lines| && IsUsageLine(lines[i])
                        && (forall j :: 0 <= j < i ==> !IsUsageLine(lines[j])) ==>
        usage == Stoul(Tokens(lines[i])[1])
    ensures (forall i :: 0 <= i < |lines| ==> !IsUsageLine(lines[i])) ==> usage == None
  {
    hide Tokens, Stoul;
    for i := 0 to |lines|
      invariant forall j :: 0 <= j < i ==> !IsUsageLine(lines[j])
    {
      var tokens := Tokens(lines[i]);
      if |tokens| >= 2 && tokens[0] == USAGE_KEY {
        assert IsUsageLine(lines[i]);
        return Stoul(tokens[1]);
      }
    }
    return None;
  }

  /** A printed key and value read back; a longer key is another key. */
  lemma UsageLineReadsBack(key: string, n: nat)
    requires IsField(key)
    ensures Tokens(Join([key, Decimal(n)])) == [key, Decimal(n)]
    ensures IsUsageLine(Join([key, Decimal(n)])) <==> key == "usage_usec"
    ensures Stoul(Tokens(Join([key, Decimal(n)]))[1]) == if n < U64 then Some(n) else None
  {
    hide Split, WithoutBlanks, Join, Stoul;
    DecimalIsField(n);
    var fields := [key, Decimal(n)];
    SplitJoin(fields);
    FieldsAreKept(fields);
    StoulOfDecimal(n);
  }

  lemma DecimalIsField(n: nat)
    ensures IsField(Decimal(n))
  {
    var s := Decimal(n);
    assert forall i :: 0 <= i < |s| ==> IsDigit(s[i]);
  }
}
