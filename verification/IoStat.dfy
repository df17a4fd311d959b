/** cgroup-v2 io.stat: the line parser, the file parser and the per-device counters. */
module IoStat {
  import opened Text

  /** The six statistics every device line must give. */
  datatype Stat = RBytes | WBytes | ROperations | WOperations | DBytes | DOperations

  /** The known keys; all others are extensions and skipped unread. */
  function StatOf(key: string): Option<Stat> {
    if key == "rbytes" then Some(RBytes)
    else if key == "wbytes" then Some(WBytes)
    else if key == "rios" then Some(ROperations)
    else if key == "wios" then Some(WOperations)
    else if key == "dbytes" then Some(DBytes)
    else if key == "dios" then Some(DOperations)
    else None
  }

  datatype IOStats = IOStats(
    deviceName: string, majorMinor: string,
    rBytes: Option<real>, wBytes: Option<real>, rOperations: Option<real>, wOperations: Option<real>,
    dBytes: Option<real>, dOperations: Option<real>)
  {
    function Get(stat: Stat): Option<real> {
      match stat
      case RBytes => rBytes
      case WBytes => wBytes
      case ROperations => rOperations
      case WOperations => wOperations
      case DBytes => dBytes
      case DOperations => dOperations
    }

    predicate Complete() {
      rBytes.Some? && wBytes.Some? && rOperations.Some? && wOperations.Some? && dBytes.Some? && dOperations.Some?
    }
  }

  /** std::from_chars on a double, whatever it accepts. */
  type Number = string -> Option<real>

  // ---------- one field ----------

  function KeyOf(field: string): string
    requires '=' in field
  {
    field[..IndexOf(field, '=')]
  }

  function ValueOf(field: string): string
    requires '=' in field
  {
    field[IndexOf(field, '=') + 1..]
  }

  predicate Gives(field: string, stat: Stat) {
    '=' in field && StatOf(KeyOf(field)) == Some(stat)
  }

  /** key=value, and for a known key a value that can be read and is not negative. */
  predicate GoodField(field: string, num: Number) {
    '=' in field && (StatOf(KeyOf(field)).Some? ==> num(ValueOf(field)).Some? && num(ValueOf(field)).value >= 0.0)
  }

  // ---------- what a line means, as a bag of fields ----------

  /** f is the only field that gives the statistic, and it is there once. */
  ghost predicate Sole(m: multiset<string>, stat: Stat, f: string) {
    m[f] == 1 && Gives(f, stat) && forall g :: g in m && Gives(g, stat) ==> g == f
  }

  ghost predicate HasSole(m: multiset<string>, stat: Stat) {
    exists f :: Sole(m, stat, f)
  }

  /** Every field good, and each of the six statistics given exactly once. */
  ghost predicate Accepted(m: multiset<string>, num: Number) {
    && (forall f :: f in m ==> GoodField(f, num))
    && forall stat: Stat :: HasSole(m, stat)
  }

  ghost function ValueFor(m: multiset<string>, num: Number, stat: Stat): (value: Option<real>)
    requires HasSole(m, stat)
    ensures exists f :: Sole(m, stat, f) && value == num(ValueOf(f))
  {
    var f :| Sole(m, stat, f);
    num(ValueOf(f))
  }

  function NameOf(device: string, devMap: map<string, string>): string {
    if device in devMap then devMap[device] else "unknown"
  }

  ghost function LineSpec(fields: seq<string>, devMap: map<string, string>, num: Number): Option<IOStats>
    requires fields != []
  {
    var m := multiset(fields[1..]);
    if !Accepted(m, num) then None
    else Some(IOStats(NameOf(fields[0], devMap), fields[0],
                      ValueFor(m, num, RBytes), ValueFor(m, num, WBytes), ValueFor(m, num, ROperations),
                      ValueFor(m, num, WOperations), ValueFor(m, num, DBytes), ValueFor(m, num, DOperations)))
  }

  // ---------- the loop ----------

  /** What has been read from the bag m so far. */
  ghost predicate ReadSoFar(stats: IOStats, m: multiset<string>, num: Number) {
    && (forall f :: f in m ==> GoodField(f, num))
    && forall stat: Stat :: ReadStat(stats, m, num, stat)
  }

  ghost predicate ReadStat(stats: IOStats, m: multiset<string>, num: Number, stat: Stat) {
    if stats.Get(stat).None? then forall g :: g in m ==> !Gives(g, stat)
    else exists f :: Sole(m, stat, f) && stats.Get(stat) == num(ValueOf(f))
  }

  /** The chain of assignments: refused (None) when the statistic already has its value. */
  function Assign(stats: IOStats, key: string, value: real): (r: Option<IOStats>)
    requires StatOf(key).Some?
    ensures r.Some? <==> stats.Get(StatOf(key).value).None?
    ensures r.Some? ==> forall stat ::
        r.value.Get(stat) == if stat == StatOf(key).value then Some(value) else stats.Get(stat)
    ensures r.Some? ==> r.value.deviceName == stats.deviceName && r.value.majorMinor == stats.majorMinor
  {
    if key == "rbytes" && stats.rBytes.None? then Some(stats.(rBytes := Some(value)))
    else if key == "wbytes" && stats.wBytes.None? then Some(stats.(wBytes := Some(value)))
    else if key == "rios" && stats.rOperations.None? then Some(stats.(rOperations := Some(value)))
    else if key == "wios" && stats.wOperations.None? then Some(stats.(wOperations := Some(value)))
    else if key == "dbytes" && stats.dBytes.None? then Some(stats.(dBytes := Some(value)))
    else if key == "dios" && stats.dOperations.None? then Some(stats.(dOperations := Some(value)))
    else None
  }

  lemma OtherFieldKeeps(stats: IOStats, m: multiset<string>, num: Number, g: string, stat: Stat)
    requires ReadStat(stats, m, num, stat) && !Gives(g, stat)
    ensures ReadStat(stats, m + multiset{g}, num, stat)
  {
  }

  lemma UnknownFieldKeeps(stats: IOStats, m: multiset<string>, num: Number, g: string)
    requires ReadSoFar(stats, m, num) && GoodField(g, num) && StatOf(KeyOf(g)).None?
    ensures ReadSoFar(stats, m + multiset{g}, num)
  {
    hide StatOf, ReadStat;
    forall stat: Stat ensures ReadStat(stats, m + multiset{g}, num, stat) {
      OtherFieldKeeps(stats, m, num, g, stat);
    }
  }

  lemma NewStatReads(stats: IOStats, m: multiset<string>, num: Number, g: string, next: IOStats)
    requires ReadSoFar(stats, m, num) && GoodField(g, num) && StatOf(KeyOf(g)).Some?
    requires Assign(stats, KeyOf(g), num(ValueOf(g)).value) == Some(next)
    ensures ReadSoFar(next, m + multiset{g}, num)
  {
    hide StatOf, Assign;
    forall stat: Stat ensures ReadStat(next, m + multiset{g}, num, stat) {
      if Gives(g, stat) {
        assert ReadStat(stats, m, num, stat) && g !in m;
        assert Sole(m + multiset{g}, stat, g);
      } else {
        OtherFieldKeeps(stats, m, num, g, stat);
      }
    }
  }

  lemma DuplicateRefused(stats: IOStats, m: multiset<string>, num: Number, g: string, all: multiset<string>)
    requires ReadSoFar(stats, m, num) && '=' in g && StatOf(KeyOf(g)).Some? && stats.Get(StatOf(KeyOf(g)).value).Some?
    requires m + multiset{g} <= all
    ensures !Accepted(all, num)
  {
    hide StatOf;
    var stat := StatOf(KeyOf(g)).value;
    assert ReadStat(stats, m, num, stat);
    var f :| Sole(m, stat, f);
    forall h ensures !Sole(all, stat, h) {
      assert f in all && g in all;
      assert (m + multiset{g})[f] <= all[f];
    }
    assert !HasSole(all, stat);
  }

  lemma SoleFieldUnique(m: multiset<string>, num: Number, stat: Stat, f: string)
    requires Sole(m, stat, f)
    ensures ValueFor(m, num, stat) == num(ValueOf(f))
  {
  }

  lemma ReadAllStat(stats: IOStats, m: multiset<string>, num: Number, stat: Stat)
    requires ReadStat(stats, m, num, stat) && forall f :: f in m ==> GoodField(f, num)
    ensures stats.Get(stat).Some? <==> HasSole(m, stat)
    ensures stats.Get(stat).Some? ==> stats.Get(stat) == ValueFor(m, num, stat)
  {
  }

  lemma ReadAllIsLineSpec(stats: IOStats, fields: seq<string>, devMap: map<string, string>, num: Number)
    requires fields != [] && ReadSoFar(stats, multiset(fields[1..]), num)
    requires stats.majorMinor == fields[0] && stats.deviceName == NameOf(fields[0], devMap)
    ensures LineSpec(fields, devMap, num) == if stats.Complete() then Some(stats) else None
  {
    hide StatOf, ReadStat, Sole, ValueFor, GoodField, NameOf;
    var m := multiset(fields[1..]);
    assert forall f :: f in m ==> GoodField(f, num);
    ReadAllStat(stats, m, num, RBytes);
    ReadAllStat(stats, m, num, WBytes);
    ReadAllStat(stats, m, num, ROperations);
    ReadAllStat(stats, m, num, WOperations);
    ReadAllStat(stats, m, num, DBytes);
    ReadAllStat(stats, m, num, DOperations);
    if stats.Complete() {
      forall stat: Stat ensures HasSole(m, stat) {
        ReadAllStat(stats, m, num, stat);
      }
    }
  }

  method ParseIOLine(fields: seq<string>, devMap: map<string, string>, num: Number) returns (r: Option<IOStats>)
    requires fields != []
    ensures r == LineSpec(fields, devMap, num)
  {
    hide StatOf, Assign, KeyOf, ValueOf, ReadSoFar, NameOf;
    var stats := IOStats(NameOf(fields[0], devMap), fields[0], None, None, None, None, None, None);
    ghost var all := multiset(fields[1..]);
    NothingRead(stats, num);
    assert fields[1..1] == [];
    for i := 1 to |fields|
      invariant ReadSoFar(stats, multiset(fields[1..i]), num)
      invariant stats.deviceName == NameOf(fields[0], devMap) && stats.majorMinor == fields[0]
    {
      ghost var m := multiset(fields[1..i]);
      OneMoreField(fields, i);
      if '=' !in fields[i] {
        return None;
      }
      var key := KeyOf(fields[i]);
      if StatOf(key).None? {
        UnknownFieldKeeps(stats, m, num, fields[i]);
        continue;
      }
      var value := num(ValueOf(fields[i]));
      if value.None? || value.value < 0.0 {
        return None;
      }
      var next := Assign(stats, key, value.value);
      if next.None? {
        DuplicateRefused(stats, m, num, fields[i], all);
        return None;
      }
      NewStatReads(stats, m, num, fields[i], next.value);
      stats := next.value;
    }
    assert fields[1..|fields|] == fields[1..];
    ReadAllIsLineSpec(stats, fields, devMap, num);
    r := if stats.Complete() then Some(stats) else None;
  }

  lemma NothingRead(stats: IOStats, num: Number)
    requires forall stat :: stats.Get(stat).None?
    ensures ReadSoFar(stats, multiset{}, num)
  {
  }

  lemma OneMoreField(fields: seq<string>, i: nat)
    requires 1 <= i < |fields|
    ensures multiset(fields[1..i + 1]) == multiset(fields[1..i]) + multiset{fields[i]} <= multiset(fields[1..])
    ensures fields[i] in multiset(fields[1..])
  {
    assert fields[1..i + 1] == fields[1..i] + [fields[i]];
    assert fields[1..] == fields[1..i + 1] + fields[i + 1..];
  }

  // ---------- what the specification of a line promises ----------

  /** Index form of "given exactly once". */
  ghost predicate GivenOnce(fields: seq<string>, stat: Stat) {
    exists i :: 1 <= i < |fields| && Gives(fields[i], stat)
                && forall j :: 1 <= j < |fields| && j != i ==> !Gives(fields[j], stat)
  }

  lemma SoleIsGivenOnce(fields: seq<string>, stat: Stat)
    requires fields != []
    ensures HasSole(multiset(fields[1..]), stat) <==> GivenOnce(fields, stat)
  {
    hide Gives, HasSole, GivenOnce;
    if HasSole(multiset(fields[1..]), stat) {
      SoleGivesOnce(fields, stat);
    }
    if GivenOnce(fields, stat) {
      OnceIsSole(fields, stat);
    }
  }

  lemma SoleGivesOnce(fields: seq<string>, stat: Stat)
    requires fields != [] && HasSole(multiset(fields[1..]), stat)
    ensures GivenOnce(fields, stat)
  {
    hide Gives;
    var t := fields[1..];
    var f :| Sole(multiset(t), stat, f);
    var i :| 0 <= i < |t| && t[i] == f;
    forall j | 1 <= j < |fields| && j != i + 1 ensures !Gives(fields[j], stat) {
      assert t[j - 1] == fields[j] && t[j - 1] in multiset(t);
      TwoOccurrences(t, i, j - 1);
    }
    assert fields[i + 1] == f;
  }

  lemma OnceIsSole(fields: seq<string>, stat: Stat)
    requires fields != [] && GivenOnce(fields, stat)
    ensures HasSole(multiset(fields[1..]), stat)
  {
    hide Gives;
    var t := fields[1..];
    var i :| 1 <= i < |fields| && Gives(fields[i], stat)
             && forall j :: 1 <= j < |fields| && j != i ==> !Gives(fields[j], stat);
    assert t[i - 1] == fields[i];
    forall g | g in multiset(t) && Gives(g, stat) ensures g == fields[i] {
      var j :| 0 <= j < |t| && t[j] == g;
      assert fields[j + 1] == g;
    }
    OneOccurrence(t, i - 1);
    assert Sole(multiset(t), stat, fields[i]);
  }

  lemma TwoOccurrences(t: seq<string>, i: nat, j: nat)
    requires i < |t| && j < |t| && i != j && multiset(t)[t[i]] == 1
    ensures t[i] != t[j]
  {
    var a, b := if i < j then i else j, if i < j then j else i;
    assert t == t[..a] + [t[a]] + t[a + 1..b] + [t[b]] + t[b + 1..];
  }

  lemma OneOccurrence(t: seq<string>, i: nat)
    requires i < |t| && forall j :: 0 <= j < |t| && j != i ==> t[j] != t[i]
    ensures multiset(t)[t[i]] == 1
  {
    assert t == t[..i] + [t[i]] + t[i + 1..];
    assert t[i] !in t[..i] && t[i] !in t[i + 1..];
  }

  /** A line is accepted exactly when every field after the device is good and each of the six known
      keys occurs exactly once. */
  lemma LineAcceptedIff(fields: seq<string>, devMap: map<string, string>, num: Number)
    requires fields != []
    ensures LineSpec(fields, devMap, num).Some?
            <==> (forall i :: 1 <= i < |fields| ==> GoodField(fields[i], num))
                 && forall stat: Stat :: GivenOnce(fields, stat)
  {
    hide GoodField, HasSole, GivenOnce, ValueFor, NameOf;
    forall stat: Stat ensures HasSole(multiset(fields[1..]), stat) <==> GivenOnce(fields, stat) {
      SoleIsGivenOnce(fields, stat);
    }
    AllGood(fields, num);
  }

  lemma AllGood(fields: seq<string>, num: Number)
    requires fields != []
    ensures (forall f :: f in multiset(fields[1..]) ==> GoodField(f, num))
            <==> forall i :: 1 <= i < |fields| ==> GoodField(fields[i], num)
  {
    hide GoodField;
    var t := fields[1..];
    assert forall i :: 1 <= i < |fields| ==> fields[i] == t[i - 1] && t[i - 1] in multiset(t);
    assert forall f :: f in multiset(t) ==> exists i :: 0 <= i < |t| && t[i] == f && fields[i + 1] == f;
  }

  // ---------- the same by the names of the keys ----------

  /** The field is key=value for this key. */
  predicate Has(field: string, key: string) {
    key + "=" <= field
  }

  lemma HasIsKey(field: string, key: string)
    requires '=' !in key
    ensures Has(field, key) <==> '=' in field && KeyOf(field) == key
    ensures Has(field, key) ==> ValueOf(field) == field[|key| + 1..]
  {
    hide IndexOf;
    if Has(field, key) {
      assert field[|key|] == '=' && forall k :: 0 <= k < |key| ==> field[k] == key[k];
    }
  }

  /** The six known keys are exactly these. */
  lemma GivesByName(field: string)
    ensures Gives(field, RBytes) <==> Has(field, "rbytes")
    ensures Gives(field, WBytes) <==> Has(field, "wbytes")
    ensures Gives(field, ROperations) <==> Has(field, "rios")
    ensures Gives(field, WOperations) <==> Has(field, "wios")
    ensures Gives(field, DBytes) <==> Has(field, "dbytes")
    ensures Gives(field, DOperations) <==> Has(field, "dios")
  {
    hide Has, KeyOf;
    HasIsKey(field, "rbytes");
    HasIsKey(field, "wbytes");
    HasIsKey(field, "rios");
    HasIsKey(field, "wios");
    HasIsKey(field, "dbytes");
    HasIsKey(field, "dios");
  }

  /** Where a field has the key, its value is what follows the equals sign. */
  predicate Reads(field: string, key: string, num: Number, value: Option<real>) {
    Has(field, key) ==> num(field[|key| + 1..]) == value
  }

  lemma GivesValue(fields: seq<string>, num: Number, i: nat, stat: Stat, key: string)
    requires 1 <= i < |fields| && '=' !in key && (Gives(fields[i], stat) <==> Has(fields[i], key))
    requires HasSole(multiset(fields[1..]), stat)
    ensures Reads(fields[i], key, num, ValueFor(multiset(fields[1..]), num, stat))
  {
    hide Gives, KeyOf;
    var m := multiset(fields[1..]);
    HasIsKey(fields[i], key);
    assert fields[1..][i - 1] == fields[i] && fields[i] in m;
    var f :| Sole(m, stat, f);
    SoleFieldUnique(m, num, stat, f);
  }

  /** In an accepted line every field with a known key sets the statistic of its name, and no other. */
  lemma StatsByName(fields: seq<string>, devMap: map<string, string>, num: Number, i: nat)
    requires fields != [] && LineSpec(fields, devMap, num).Some? && 1 <= i < |fields|
    ensures var stats := LineSpec(fields, devMap, num).value; var f := fields[i];
            && Reads(f, "rbytes", num, stats.rBytes) && Reads(f, "wbytes", num, stats.wBytes)
            && Reads(f, "rios", num, stats.rOperations) && Reads(f, "wios", num, stats.wOperations)
            && Reads(f, "dbytes", num, stats.dBytes) && Reads(f, "dios", num, stats.dOperations)
            && stats.majorMinor == fields[0]
            && stats.deviceName == if fields[0] in devMap then devMap[fields[0]] else "unknown"
  {
    hide Gives, Reads, Has, HasSole, ValueFor;
    GivesByName(fields[i]);
    GivesValue(fields, num, i, RBytes, "rbytes");
    GivesValue(fields, num, i, WBytes, "wbytes");
    GivesValue(fields, num, i, ROperations, "rios");
    GivesValue(fields, num, i, WOperations, "wios");
    GivesValue(fields, num, i, DBytes, "dbytes");
    GivesValue(fields, num, i, DOperations, "dios");
  }

  predicate GoodValue(field: string, key: string, num: Number) {
    Has(field, key) ==> num(field[|key| + 1..]).Some? && num(field[|key| + 1..]).value >= 0.0
  }

  /** key=value; after one of the six keys a value that can be read and is not negative. */
  predicate GoodByName(field: string, num: Number) {
    && '=' in field
    && GoodValue(field, "rbytes", num) && GoodValue(field, "wbytes", num) && GoodValue(field, "rios", num)
    && GoodValue(field, "wios", num) && GoodValue(field, "dbytes", num) && GoodValue(field, "dios", num)
  }

  lemma GoodFieldByName(field: string, num: Number)
    ensures GoodField(field, num) <==> GoodByName(field, num)
  {
    hide Has, KeyOf, ValueOf;
    if '=' in field {
      HasIsKey(field, "rbytes");
      HasIsKey(field, "wbytes");
      HasIsKey(field, "rios");
      HasIsKey(field, "wios");
      HasIsKey(field, "dbytes");
      HasIsKey(field, "dios");
    }
  }

  /** Exactly one field after the device has the key. */
  ghost predicate HasOnce(fields: seq<string>, key: string) {
    exists i :: 1 <= i < |fields| && Has(fields[i], key)
                && forall j :: 1 <= j < |fields| && j != i ==> !Has(fields[j], key)
  }

  lemma GivenOnceByName(fields: seq<string>)
    ensures GivenOnce(fields, RBytes) <==> HasOnce(fields, "rbytes")
    ensures GivenOnce(fields, WBytes) <==> HasOnce(fields, "wbytes")
    ensures GivenOnce(fields, ROperations) <==> HasOnce(fields, "rios")
    ensures GivenOnce(fields, WOperations) <==> HasOnce(fields, "wios")
    ensures GivenOnce(fields, DBytes) <==> HasOnce(fields, "dbytes")
    ensures GivenOnce(fields, DOperations) <==> HasOnce(fields, "dios")
  {
    hide Gives, Has;
    forall i | 1 <= i < |fields|
      ensures Gives(fields[i], RBytes) <==> Has(fields[i], "rbytes")
      ensures Gives(fields[i], WBytes) <==> Has(fields[i], "wbytes")
      ensures Gives(fields[i], ROperations) <==> Has(fields[i], "rios")
      ensures Gives(fields[i], WOperations) <==> Has(fields[i], "wios")
      ensures Gives(fields[i], DBytes) <==> Has(fields[i], "dbytes")
      ensures Gives(fields[i], DOperations) <==> Has(fields[i], "dios")
    {
      GivesByName(fields[i]);
    }
  }

  /** A line is accepted exactly when every field after the device is good and each of rbytes, wbytes, rios,
      wios, dbytes and dios is there exactly once. */
  lemma LineAcceptedByName(fields: seq<string>, devMap: map<string, string>, num: Number)
    requires fields != []
    ensures LineSpec(fields, devMap, num).Some?
            <==> (forall i :: 1 <= i < |fields| ==> GoodByName(fields[i], num))
                 && HasOnce(fields, "rbytes") && HasOnce(fields, "wbytes") && HasOnce(fields, "rios")
                 && HasOnce(fields, "wios") && HasOnce(fields, "dbytes") && HasOnce(fields, "dios")
  {
    hide GoodField, GoodByName, GivenOnce, HasOnce, LineSpec;
    LineAcceptedIff(fields, devMap, num);
    GivenOnceByName(fields);
    forall i | 1 <= i < |fields| ensures GoodField(fields[i], num) <==> GoodByName(fields[i], num) {
      GoodFieldByName(fields[i], num);
    }
    assert GivenOnce(fields, RBytes) && GivenOnce(fields, WBytes) && GivenOnce(fields, ROperations)
           && GivenOnce(fields, WOperations) && GivenOnce(fields, DBytes) && GivenOnce(fields, DOperations)
           <==> forall stat: Stat :: GivenOnce(fields, stat)
      by { AllStats(fields); }
  }

  lemma AllStats(fields: seq<string>)
    ensures GivenOnce(fields, RBytes) && GivenOnce(fields, WBytes) && GivenOnce(fields, ROperations)
            && GivenOnce(fields, WOperations) && GivenOnce(fields, DBytes) && GivenOnce(fields, DOperations)
            <==> forall stat: Stat :: GivenOnce(fields, stat)
  {
    hide GivenOnce;
    if GivenOnce(fields, RBytes) && GivenOnce(fields, WBytes) && GivenOnce(fields, ROperations)
       && GivenOnce(fields, WOperations) && GivenOnce(fields, DBytes) && GivenOnce(fields, DOperations) {
      forall stat: Stat ensures GivenOnce(fields, stat) {
        match stat
        case RBytes =>
        case WBytes =>
        case ROperations =>
        case WOperations =>
        case DBytes =>
        case DOperations =>
      }
    }
  }

  // ---------- printed lines ----------

  /** The texts the kernel prints after the six keys. */
  datatype Texts = Texts(rbytes: string, wbytes: string, rios: string, wios: string, dbytes: string, dios: string)

  function Printed(t: Texts): seq<string> {
    ["rbytes=" + t.rbytes, "wbytes=" + t.wbytes, "rios=" + t.rios, "wios=" + t.wios, "dbytes=" + t.dbytes,
     "dios=" + t.dios]
  }

  predicate Readable(num: Number, text: string) {
    num(text).Some? && num(text).value >= 0.0
  }

  predicate AllReadable(num: Number, t: Texts) {
    && Readable(num, t.rbytes) && Readable(num, t.wbytes) && Readable(num, t.rios) && Readable(num, t.wios)
    && Readable(num, t.dbytes) && Readable(num, t.dios)
  }

  /** key=value with none of the six keys. */
  predicate IsExtension(field: string) {
    && '=' in field && !Has(field, "rbytes") && !Has(field, "wbytes") && !Has(field, "rios") && !Has(field, "wios")
    && !Has(field, "dbytes") && !Has(field, "dios")
  }

  lemma KeyValue(key: string, value: string)
    requires '=' !in key
    ensures var field := key + "=" + value;
            && Has(field, key) && '=' in field && field[|key| + 1..] == value
            && forall other :: '=' !in other && other != key ==> !Has(field, other)
  {
    hide IndexOf;
    var field := key + "=" + value;
    assert field[..|key| + 1] == key + "=";
    forall other | '=' !in other && other != key ensures !Has(field, other) {
      HasIsKey(field, key);
      HasIsKey(field, other);
    }
  }

  /** One printed field: its own key and no other, its own value. */
  predicate IsPrinted(field: string, key: string, value: string) {
    && '=' in field && Has(field, key) && field[|key| + 1..] == value
    && (key != "rbytes" ==> !Has(field, "rbytes")) && (key != "wbytes" ==> !Has(field, "wbytes"))
    && (key != "rios" ==> !Has(field, "rios")) && (key != "wios" ==> !Has(field, "wios"))
    && (key != "dbytes" ==> !Has(field, "dbytes")) && (key != "dios" ==> !Has(field, "dios"))
  }

  lemma PrintedField(field: string, key: string, value: string)
    requires '=' !in key && field == key + "=" + value
    ensures IsPrinted(field, key, value)
  {
    hide Has;
    KeyValue(key, value);
  }

  ghost predicate PrintedLine(line: seq<string>, t: Texts) {
    && |line| == 7 && IsPrinted(line[1], "rbytes", t.rbytes) && IsPrinted(line[2], "wbytes", t.wbytes)
    && IsPrinted(line[3], "rios", t.rios) && IsPrinted(line[4], "wios", t.wios)
    && IsPrinted(line[5], "dbytes", t.dbytes) && IsPrinted(line[6], "dios", t.dios)
  }

  lemma PrintedIsGood(field: string, key: string, value: string, num: Number)
    requires key in {"rbytes", "wbytes", "rios", "wios", "dbytes", "dios"}
    requires IsPrinted(field, key, value) && Readable(num, value)
    ensures GoodByName(field, num)
  {
    hide Has;
  }

  lemma PrintedHasOnce(line: seq<string>, t: Texts)
    requires PrintedLine(line, t)
    ensures HasOnce(line, "rbytes") && HasOnce(line, "wbytes") && HasOnce(line, "rios")
    ensures HasOnce(line, "wios") && HasOnce(line, "dbytes") && HasOnce(line, "dios")
  {
    hide Has, HasOnce;
    OnceAt(line, "rbytes", 1);
    OnceAt(line, "wbytes", 2);
    OnceAt(line, "rios", 3);
    OnceAt(line, "wios", 4);
    OnceAt(line, "dbytes", 5);
    OnceAt(line, "dios", 6);
  }

  lemma OnceAt(line: seq<string>, key: string, i: nat)
    requires 1 <= i < |line| && Has(line[i], key) && forall j :: 1 <= j < |line| && j != i ==> !Has(line[j], key)
    ensures HasOnce(line, key)
  {
    hide Has;
  }

  lemma PrintedIsAccepted(line: seq<string>, t: Texts, devMap: map<string, string>, num: Number)
    requires PrintedLine(line, t) && AllReadable(num, t)
    ensures LineSpec(line, devMap, num).Some?
  {
    PrintedHasOnce(line, t);
    hide LineSpec, IsPrinted, HasOnce, GoodByName, Readable;
    PrintedIsGood(line[1], "rbytes", t.rbytes, num);
    PrintedIsGood(line[2], "wbytes", t.wbytes, num);
    PrintedIsGood(line[3], "rios", t.rios, num);
    PrintedIsGood(line[4], "wios", t.wios, num);
    PrintedIsGood(line[5], "dbytes", t.dbytes, num);
    PrintedIsGood(line[6], "dios", t.dios, num);
    LineAcceptedByName(line, devMap, num);
  }

  lemma PrintedReads(field: string, key: string, value: string, num: Number, read: Option<real>)
    requires IsPrinted(field, key, value) && Reads(field, key, num, read)
    ensures read == num(value)
  {
    hide Has;
  }

  function StatsOf(device: string, t: Texts, devMap: map<string, string>, num: Number): IOStats {
    IOStats(if device in devMap then devMap[device] else "unknown", device, num(t.rbytes), num(t.wbytes), num(t.rios),
            num(t.wios), num(t.dbytes), num(t.dios))
  }

  lemma PrintedInOrder(device: string, t: Texts, devMap: map<string, string>, num: Number)
    requires AllReadable(num, t)
    ensures LineSpec([device] + Printed(t), devMap, num) == Some(StatsOf(device, t, devMap, num))
  {
    var line := [device] + Printed(t);
    PrintedIsALine(device, t);
    hide LineSpec, IsPrinted, Reads, Printed;
    PrintedIsAccepted(line, t, devMap, num);
    var stats := LineSpec(line, devMap, num).value;
    StatsByName(line, devMap, num, 1);
    StatsByName(line, devMap, num, 2);
    StatsByName(line, devMap, num, 3);
    StatsByName(line, devMap, num, 4);
    StatsByName(line, devMap, num, 5);
    StatsByName(line, devMap, num, 6);
    PrintedReads(line[1], "rbytes", t.rbytes, num, stats.rBytes);
    PrintedReads(line[2], "wbytes", t.wbytes, num, stats.wBytes);
    PrintedReads(line[3], "rios", t.rios, num, stats.rOperations);
    PrintedReads(line[4], "wios", t.wios, num, stats.wOperations);
    PrintedReads(line[5], "dbytes", t.dbytes, num, stats.dBytes);
    PrintedReads(line[6], "dios", t.dios, num, stats.dOperations);
  }

  lemma PrintedIsALine(device: string, t: Texts)
    ensures PrintedLine([device] + Printed(t), t)
  {
    hide IsPrinted;
    var line := [device] + Printed(t);
    PrintedField(line[1], "rbytes", t.rbytes);
    PrintedField(line[2], "wbytes", t.wbytes);
    PrintedField(line[3], "rios", t.rios);
    PrintedField(line[4], "wios", t.wios);
    PrintedField(line[5], "dbytes", t.dbytes);
    PrintedField(line[6], "dios", t.dios);
  }

  lemma ExtensionIsUnknown(field: string)
    requires IsExtension(field)
    ensures StatOf(KeyOf(field)).None?
  {
    hide Has, KeyOf;
    GivesByName(field);
  }

  /** The six printed fields read back under their names, in any order and with any extensions. */
  lemma PrintedLineReadsBack(fields: seq<string>, t: Texts, extra: seq<string>, devMap: map<string, string>,
                             num: Number)
    requires fields != [] && multiset(fields[1..]) == multiset(Printed(t)) + multiset(extra)
    requires AllReadable(num, t) && forall f :: f in extra ==> IsExtension(f)
    ensures LineSpec(fields, devMap, num) == Some(StatsOf(fields[0], t, devMap, num))
  {
    hide LineSpec, Printed, StatOf, KeyOf, IsExtension, AllReadable;
    var line := [fields[0]] + Printed(t);
    assert line[1..] == Printed(t);
    PrintedInOrder(fields[0], t, devMap, num);
    forall f | f in extra ensures '=' in f && StatOf(KeyOf(f)).None? {
      ExtensionHasEquals(f);
      ExtensionIsUnknown(f);
    }
    OrderAndExtensionsIgnored(line, fields, extra, devMap, num);
  }

  lemma ExtensionHasEquals(field: string)
    requires IsExtension(field)
    ensures '=' in field
  {
  }

  /** Any accepted line has at least seven fields. */
  lemma AcceptedLineHasSevenFields(fields: seq<string>, devMap: map<string, string>, num: Number)
    requires fields != [] && LineSpec(fields, devMap, num).Some?
    ensures |fields| >= 7
  {
    hide StatOf, ValueFor, KeyOf, Sole;
    var m := multiset(fields[1..]);
    var rest := RemoveSole(m, m, {}, RBytes);
    rest := RemoveSole(m, rest, {RBytes}, WBytes);
    rest := RemoveSole(m, rest, {RBytes, WBytes}, ROperations);
    rest := RemoveSole(m, rest, {RBytes, WBytes, ROperations}, WOperations);
    rest := RemoveSole(m, rest, {RBytes, WBytes, ROperations, WOperations}, DBytes);
    rest := RemoveSole(m, rest, {RBytes, WBytes, ROperations, WOperations, DBytes}, DOperations);
  }

  /** rest still holds the fields that give a statistic outside `gone`. */
  lemma RemoveSole(m: multiset<string>, rest: multiset<string>, gone: set<Stat>, stat: Stat)
    returns (next: multiset<string>)
    requires HasSole(m, stat) && stat !in gone
    requires forall s, f :: s !in gone && Gives(f, s) ==> rest[f] == m[f]
    ensures |next| + 1 == |rest|
    ensures forall s, f :: s !in gone + {stat} && Gives(f, s) ==> next[f] == m[f]
  {
    hide StatOf, KeyOf;
    var f :| Sole(m, stat, f);
    next := rest - multiset{f};
    assert rest == next + multiset{f};
  }

  /** Neither the order of the fields nor unknown key=value fields matter. */
  lemma OrderAndExtensionsIgnored(
    a: seq<string>, b: seq<string>, extra: seq<string>, devMap: map<string, string>, num: Number)
    requires a != [] && b != [] && a[0] == b[0]
    requires multiset(b[1..]) == multiset(a[1..]) + multiset(extra)
    requires forall f :: f in extra ==> '=' in f && StatOf(KeyOf(f)).None?
    ensures LineSpec(a, devMap, num) == LineSpec(b, devMap, num)
  {
    hide StatOf, KeyOf, ValueOf, ValueFor;
    var m, n := multiset(a[1..]), multiset(b[1..]);
    assert forall f :: f in multiset(extra) ==> f in extra;
    forall stat: Stat, f ensures Sole(m, stat, f) <==> Sole(n, stat, f) {
      SoleUpToExtensions(m, multiset(extra), stat, f);
    }
    assert forall stat: Stat :: HasSole(m, stat) <==> HasSole(n, stat);
    forall stat: Stat | HasSole(m, stat) ensures ValueFor(m, num, stat) == ValueFor(n, num, stat) {
      var f :| Sole(m, stat, f);
      SoleFieldUnique(m, num, stat, f);
      SoleFieldUnique(n, num, stat, f);
    }
    assert forall f :: f in n <==> f in m || f in multiset(extra);
    assert Accepted(m, num) <==> Accepted(n, num);
  }

  lemma SoleUpToExtensions(m: multiset<string>, extra: multiset<string>, stat: Stat, f: string)
    requires forall g :: g in extra ==> !Gives(g, stat)
    ensures Sole(m, stat, f) <==> Sole(m + extra, stat, f)
  {
  }

  // ---------- the file ----------

  predicate Skipped(fields: seq<string>) {
    |fields| == 1
  }

  ghost predicate BadLine(fields: seq<string>, devMap: map<string, string>, num: Number) {
    !Skipped(fields) && (|fields| < 7 || LineSpec(fields, devMap, num).None?)
  }

  /** The first line of each device, over the first n lines. */
  ghost function Devices(lines: seq<seq<string>>, devMap: map<string, string>, num: Number, n: nat)
    : map<string, IOStats>
    requires n <= |lines|
  {
    if n == 0 then map[]
    else
      var before := Devices(lines, devMap, num, n - 1);
      var l := lines[n - 1];
      if Skipped(l) || BadLine(l, devMap, num) || l[0] in before then before
      else before[l[0] := LineSpec(l, devMap, num).value]
  }

  /** Two lines with statistics of the same device. */
  predicate Names(a: seq<string>, b: seq<string>) {
    a != [] && b != [] && !Skipped(a) && !Skipped(b) && a[0] == b[0]
  }

  /** Of each line only its number of fields and its acceptance count: one field alone is skipped, a blank
      line or one of two to six fields is bad. */
  lemma BadLineIff(fields: seq<string>, devMap: map<string, string>, num: Number)
    ensures |fields| == 1 ==> !BadLine(fields, devMap, num)
    ensures |fields| != 1 && |fields| < 7 ==> BadLine(fields, devMap, num)
    ensures |fields| >= 7 ==> (BadLine(fields, devMap, num) <==> LineSpec(fields, devMap, num).None?)
  {
    hide LineSpec;
  }

  /** Without bad lines each device listed gets what its first line says. */
  lemma {:induction false} FirstLineWins(
    lines: seq<seq<string>>, devMap: map<string, string>, num: Number, n: nat, i: nat)
    requires i < n <= |lines| && forall j :: 0 <= j < n ==> !BadLine(lines[j], devMap, num)
    requires !Skipped(lines[i]) && forall j :: 0 <= j < i ==> !Names(lines[j], lines[i])
    ensures lines[i] != [] && lines[i][0] in Devices(lines, devMap, num, n)
    ensures Some(Devices(lines, devMap, num, n)[lines[i][0]]) == LineSpec(lines[i], devMap, num)
  {
    hide LineSpec;
    if i < n - 1 {
      FirstLineWins(lines, devMap, num, n - 1, i);
    } else {
      OnlyListedDevices(lines, devMap, num, i, lines[i]);
    }
  }

  lemma {:induction false} OnlyListedDevices(
    lines: seq<seq<string>>, devMap: map<string, string>, num: Number, n: nat, line: seq<string>)
    requires n <= |lines| && forall j :: 0 <= j < n ==> !BadLine(lines[j], devMap, num)
    requires line != [] && !Skipped(line) && forall j :: 0 <= j < n ==> !Names(lines[j], line)
    ensures line[0] !in Devices(lines, devMap, num, n)
  {
    hide LineSpec;
    if n > 0 {
      OnlyListedDevices(lines, devMap, num, n - 1, line);
    }
  }

  /** One bad line makes the whole file parse to the empty map. */
  method ParseIOLines(lines: seq<seq<string>>, devMap: map<string, string>, num: Number)
    returns (ioStats: map<string, IOStats>)
    ensures (exists l :: l in lines && BadLine(l, devMap, num)) ==> ioStats == map[]
    ensures (forall l :: l in lines ==> !BadLine(l, devMap, num)) ==> ioStats == Devices(lines, devMap, num, |lines|)
    ensures forall k :: k in ioStats ==> ioStats[k].Complete() && ioStats[k].majorMinor == k
  {
    hide LineSpec, Accepted;
    ioStats := map[];
    for i := 0 to |lines|
      invariant forall j :: 0 <= j < i ==> !BadLine(lines[j], devMap, num)
      invariant ioStats == Devices(lines, devMap, num, i)
      invariant forall k :: k in ioStats ==> ioStats[k].Complete() && ioStats[k].majorMinor == k
    {
      var fields := lines[i];
      if |fields| == 1 {
        continue;
      }
      if |fields| < 7 {
        assert BadLine(lines[i], devMap, num);
        return map[];
      }
      var stats := ParseIOLine(fields, devMap, num);
      if stats.None? {
        assert BadLine(lines[i], devMap, num);
        return map[];
      }
      LineIsComplete(fields, devMap, num);
      if stats.value.majorMinor !in ioStats {
        ioStats := ioStats[stats.value.majorMinor := stats.value];
      }
    }
  }

  lemma LineIsComplete(fields: seq<string>, devMap: map<string, string>, num: Number)
    requires fields != [] && LineSpec(fields, devMap, num).Some?
    ensures LineSpec(fields, devMap, num).value.Complete()
    ensures LineSpec(fields, devMap, num).value.majorMinor == fields[0]
  {
  }

}
