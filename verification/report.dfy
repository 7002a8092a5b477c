/** The S6F11 event-report extraction (`_parse_s6f11_report` in log_parser.py).

    The body is tokenized and built into a forest. The first event leaf in pre-order gives
    the event code. Report schemas are then tried in catalog order, and the first one
    whose key tags a list with a non-empty second element supplies the field names. The
    elements of that payload are stored under those names by position.

    The event and report catalogs come from a configuration module outside this model.
    They are parameters here; the report catalog is a sequence so that its order, which
    decides the priority, is explicit. */
module Report {
  import opened Text
  import opened Tokenizer
  import opened Trees
  import opened TreeBuilder
  import opened TreeSearch
  import opened RoundTrip
  import opened Events

  /** One report schema: its key and the names of its fields, in payload order. */
  datatype ReportSchema = ReportSchema(id: int, fields: seq<string>)

  /** The event catalog (code to label) and the report catalog, in iteration order. */
  datatype Catalogs = Catalogs(events: map<int, string>, reports: seq<ReportSchema>)

  /** Python's `str()` of a report key: what the tag leaf must equal. */
  function Key(id: int): string
  {
    IntToDecimal(id)
  }

  /** The elements of a payload as `payload[i]` sees them: a list's children, or the
      characters of a string, each a one-character string. */
  function Entries(p: Tree): (r: seq<Tree>)
    ensures p.List? ==> r == p.children
    ensures p.Leaf? ==> |r| == |p.text| && forall i :: 0 <= i < |r| ==> r[i] == Leaf([p.text[i]])
  {
    match p
    case Leaf(s) => seq(|s|, i requires 0 <= i < |s| => Leaf([s[i]]))
    case List(cs) => cs
  }

  /** Python truthiness of what `_find_values` returned: found, and not an empty string
      or list. */
  predicate Truthy(p: Option<Tree>)
  {
    p.Some? && match p.value
               case Leaf(s) => s != []
               case List(cs) => cs != []
  }

  /** A truthy payload is one with elements to map. */
  lemma TruthyHasEntries(p: Option<Tree>)
    ensures Truthy(p) <==> p.Some? && Entries(p.value) != []
  {
  }

  /** The payload the schema's key selects in the tree. */
  function PayloadFor(root: Tree, s: ReportSchema): Option<Tree>
  {
    FindValues(root, Key(s.id))
  }

  /** The payload each schema's key selects, in catalog order. */
  function Payloads(root: Tree, reports: seq<ReportSchema>): (ps: seq<Option<Tree>>)
    ensures |ps| == |reports| && forall j :: 0 <= j < |reports| ==> ps[j] == PayloadFor(root, reports[j])
  {
    seq(|reports|, j requires 0 <= j < |reports| => PayloadFor(root, reports[j]))
  }

  /** The loop over the report catalog with its `break`: the index of the first schema
      whose payload is truthy. Schemas before it have empty or missing payloads; schemas
      after it are not looked at. */
  function ChooseReport(root: Tree, reports: seq<ReportSchema>): (r: Option<nat>)
    ensures r.Some? ==> && r.value < |reports| && Truthy(PayloadFor(root, reports[r.value]))
                        && forall j :: 0 <= j < r.value ==> !Truthy(PayloadFor(root, reports[j]))
    ensures r.None? ==> forall j :: 0 <= j < |reports| ==> !Truthy(PayloadFor(root, reports[j]))
  {
    FirstTruthy(Payloads(root, reports), 0)
  }

  /** The first truthy payload from index `i` on. */
  function FirstTruthy(ps: seq<Option<Tree>>, i: nat): (r: Option<nat>)
    requires i <= |ps|
    ensures r.Some? ==> && i <= r.value < |ps| && Truthy(ps[r.value])
                        && forall j :: i <= j < r.value ==> !Truthy(ps[j])
    ensures r.None? ==> forall j :: i <= j < |ps| ==> !Truthy(ps[j])
    decreases |ps| - i
  {
    if i == |ps| then None
    else if Truthy(ps[i]) then Some(i)
    else FirstTruthy(ps, i + 1)
  }

  /** How many names receive an entry: the shorter of the two lengths. */
  function Paired(names: seq<string>, entries: seq<Tree>): nat
  {
    if |names| < |entries| then |names| else |entries|
  }

  /** What the inner loop leaves in `r`, starting from `d`: the first `m` names receive
      the first `m` entries, `m` being `Paired(names, entries)`, and a name written twice
      keeps its last value. Every other key keeps what it had. */
  ghost predicate FieldsApplied(d: Details, names: seq<string>, entries: seq<Tree>, r: Details)
  {
    OthersKept(d, names[..Paired(names, entries)], r) && NamesWritten(names, entries, r)
  }

  /** Keys outside `written` are in `r` exactly when they are in `d`, with the same value. */
  ghost predicate OthersKept(d: Details, written: seq<string>, r: Details)
  {
    && (forall k :: k !in written ==> (k in r <==> k in d))
    && (forall k :: k !in written && k in d ==> r[k] == d[k])
  }

  /** Each of the first `m` names is in `r`, holding its entry unless a later one of them
      is the same name. */
  ghost predicate NamesWritten(names: seq<string>, entries: seq<Tree>, r: Details)
  {
    var m := Paired(names, entries);
    && (forall i :: 0 <= i < m ==> names[i] in r)
    && (forall i :: 0 <= i < m && names[i] !in names[i + 1..m] ==> r[names[i]] == Item(entries[i]))
  }

  /** The inner loop `for i, name in enumerate(field_names): if i < len(payload)`. */
  function ApplyFields(d: Details, names: seq<string>, entries: seq<Tree>): (r: Details)
    ensures FieldsApplied(d, names, entries, r)
    decreases |names|
  {
    if names == [] || entries == [] then d
    else
      var d' := d[names[0] := Item(entries[0])];
      var r := ApplyFields(d', names[1..], entries[1..]);
      ApplyFieldsStep(d, names, entries, d', r);
      r
  }

  /** The inductive step of `ApplyFields`: what the rest of the names do, seen from the
      whole list. */
  lemma ApplyFieldsStep(d: Details, names: seq<string>, entries: seq<Tree>, d': Details, r: Details)
    requires names != [] && entries != []
    requires d' == d[names[0] := Item(entries[0])]
    requires FieldsApplied(d', names[1..], entries[1..], r)
    ensures FieldsApplied(d, names, entries, r)
  {
    KeptKeys(d, names, entries, d', r);
    FirstName(d, names, entries, d', r);
    LaterNames(names, entries, r);
  }

  /** The first name, in the inductive step: written, and holding the first entry unless
      a later name overwrites it. */
  lemma FirstName(d: Details, names: seq<string>, entries: seq<Tree>, d': Details, r: Details)
    requires names != [] && entries != []
    requires d' == d[names[0] := Item(entries[0])]
    requires FieldsApplied(d', names[1..], entries[1..], r)
    ensures var m := Paired(names, entries);
            && names[0] in r
            && (names[0] !in names[1..m] ==> r[names[0]] == Item(entries[0]))
  {
    var m := Paired(names, entries);
    var t := names[1..];
    assert Paired(t, entries[1..]) == m - 1;
    assert names[1..m] == t[..m - 1];
    if names[0] in t[..m - 1] {
      var j :| 0 <= j < m - 1 && t[..m - 1][j] == names[0];
      assert t[j] in r;
    } else {
      assert names[0] in d';
    }
  }

  /** The other names, in the inductive step: what the rest of the loop gives them. */
  lemma LaterNames(names: seq<string>, entries: seq<Tree>, r: Details)
    requires names != [] && entries != []
    requires NamesWritten(names[1..], entries[1..], r)
    ensures var m := Paired(names, entries);
            forall i :: 1 <= i < m ==>
              && names[i] in r
              && (names[i] !in names[i + 1..m] ==> r[names[i]] == Item(entries[i]))
  {
    var m := Paired(names, entries);
    var t := names[1..];
    var u := entries[1..];
    assert Paired(t, u) == m - 1;
    forall i | 1 <= i < m
      ensures names[i] in r
      ensures names[i] !in names[i + 1..m] ==> r[names[i]] == Item(entries[i])
    {
      assert names[i] == t[i - 1] && entries[i] == u[i - 1];
      assert t[i - 1] in r;
      if names[i] !in names[i + 1..m] {
        TailSlice(names, i + 1, m);
      }
    }
  }

  lemma TailSlice<T>(s: seq<T>, a: nat, b: nat)
    requires 1 <= a <= b <= |s|
    ensures s[a..b] == s[1..][a - 1..b - 1]
  {
  }

  /** The keys outside the first `m` names, in the inductive step. */
  lemma KeptKeys(d: Details, names: seq<string>, entries: seq<Tree>, d': Details, r: Details)
    requires names != [] && entries != []
    requires d' == d[names[0] := Item(entries[0])]
    requires OthersKept(d', names[1..][..Paired(names[1..], entries[1..])], r)
    ensures OthersKept(d, names[..Paired(names, entries)], r)
  {
    var m := Paired(names, entries);
    var t := names[1..];
    assert Paired(t, entries[1..]) == m - 1;
    assert names[..m] == [names[0]] + t[..m - 1];
  }

  /** The field names a report may not use: a schema field with one of these names would
      overwrite the event code, the alarm code or the report key. */
  predicate ReservedFree(cat: Catalogs)
  {
    forall i, k :: 0 <= i < |cat.reports| && 0 <= k < |cat.reports[i].fields|
      ==> cat.reports[i].fields[k] != "CEID" && cat.reports[i].fields[k] != "AlarmID"
          && cat.reports[i].fields[k] != "RPTID"
  }

  /** The code, alarm code and report key entries, before any field is written. */
  function Header(c: int, cat: Catalogs, chosen: Option<nat>): (r: Details)
    requires c in cat.events
    requires chosen.Some? ==> chosen.value < |cat.reports|
    ensures "CEID" in r && r["CEID"] == Num(c)
    ensures "AlarmID" in r <==> Contains(cat.events[c], "Alarm")
    ensures "AlarmID" in r ==> r["AlarmID"] == Num(c)
    ensures "RPTID" in r <==> chosen.Some?
    ensures chosen.Some? ==> r["RPTID"] == Num(cat.reports[chosen.value].id)
    ensures forall k :: k in r ==> k == "CEID" || k == "AlarmID" || k == "RPTID"
  {
    var base := map["CEID" := Num(c)];
    var alarm := if Contains(cat.events[c], "Alarm") then base["AlarmID" := Num(c)] else base;
    match chosen
    case None => alarm
    case Some(i) => alarm["RPTID" := Num(cat.reports[i].id)]
  }

  /** `_parse_s6f11_report` once the body is built: nothing for an empty forest, for a
      forest with no event leaf, or for event code 0 (which Python treats as false);
      otherwise the code, the alarm code when the event label mentions "Alarm", and the
      chosen report's key and fields. */
  function ReportFromForest(f: seq<Tree>, cat: Catalogs): (r: Details)
    ensures r != map[] <==> f != [] && FindCeid(List(f), cat.events).Some?
                            && FindCeid(List(f), cat.events).value != 0
    ensures r != map[] ==> "CEID" in r
  {
    if f == [] then map[]
    else match FindCeid(List(f), cat.events)
      case None => map[]
      case Some(c) =>
        if c == 0 then map[]
        else
          var root := List(f);
          var chosen := ChooseReport(root, cat.reports);
          var head := Header(c, cat, chosen);
          match chosen
          case None => head
          case Some(i) =>
            var s := cat.reports[i];
            ApplyFields(head, s.fields, Entries(PayloadFor(root, s).value))
  }

  /** `_parse_s6f11_report`: tokenize the body, build the forest, extract. */
  function ParseReport(text: string, cat: Catalogs): Details
  {
    ReportFromForest(Build(Tokenize(text)), cat)
  }

  // ----- properties -----

  /** The event code and the alarm code: when anything is extracted, `CEID` is the first
      event leaf in pre-order, and `AlarmID` is present exactly when that event's label
      contains "Alarm", with the same value. */
  lemma ReportEventCode(f: seq<Tree>, cat: Catalogs)
    requires ReservedFree(cat)
    ensures var r := ReportFromForest(f, cat);
            r != map[] ==>
              && FirstHit(NodesOf(f), n => CeidAt(n, cat.events)) == Some(r["CEID"].n)
              && r["CEID"] == Num(FindCeid(List(f), cat.events).value)
              && ("AlarmID" in r <==> Contains(cat.events[r["CEID"].n], "Alarm"))
              && ("AlarmID" in r ==> r["AlarmID"] == r["CEID"])
  {
    var r := ReportFromForest(f, cat);
    if r != map[] {
      FindCeidInPreorder(f, cat.events);
      var c := FindCeid(List(f), cat.events).value;
      var root := List(f);
      var chosen := ChooseReport(root, cat.reports);
      var head := Header(c, cat, chosen);
      if chosen.Some? {
        var s := cat.reports[chosen.value];
        var es := Entries(PayloadFor(root, s).value);
        var m := if |s.fields| < |es| then |s.fields| else |es|;
        ReservedNotIn(cat, chosen.value, m);
      }
    }
  }

  lemma ReservedNotIn(cat: Catalogs, i: nat, m: nat)
    requires ReservedFree(cat) && i < |cat.reports| && m <= |cat.reports[i].fields|
    ensures var fs := cat.reports[i].fields[..m];
            "CEID" !in fs && "AlarmID" !in fs && "RPTID" !in fs
  {
    var fs := cat.reports[i].fields[..m];
    forall k | 0 <= k < |fs|
      ensures fs[k] != "CEID" && fs[k] != "AlarmID" && fs[k] != "RPTID"
    {
      assert fs[k] == cat.reports[i].fields[k];
    }
  }

  /** The report key: `RPTID` is present exactly when some schema's payload is truthy, and
      it is then the key of the first such schema in catalog order. */
  lemma ReportSchemaChoice(f: seq<Tree>, cat: Catalogs)
    requires ReservedFree(cat)
    ensures var r := ReportFromForest(f, cat);
            r != map[] ==>
              && ("RPTID" in r <==> exists j :: 0 <= j < |cat.reports|
                                              && Truthy(PayloadFor(List(f), cat.reports[j])))
              && forall i :: 0 <= i < |cat.reports| && Truthy(PayloadFor(List(f), cat.reports[i]))
                   && (forall j :: 0 <= j < i ==> !Truthy(PayloadFor(List(f), cat.reports[j])))
                   ==> r["RPTID"] == Num(cat.reports[i].id)
  {
    var r := ReportFromForest(f, cat);
    if r != map[] {
      var c := FindCeid(List(f), cat.events).value;
      var root := List(f);
      var chosen := ChooseReport(root, cat.reports);
      if chosen.Some? {
        var s := cat.reports[chosen.value];
        var es := Entries(PayloadFor(root, s).value);
        var m := if |s.fields| < |es| then |s.fields| else |es|;
        ReservedNotIn(cat, chosen.value, m);
        forall i | 0 <= i < |cat.reports| && Truthy(PayloadFor(root, cat.reports[i]))
                   && (forall j :: 0 <= j < i ==> !Truthy(PayloadFor(root, cat.reports[j])))
          ensures i == chosen.value
        {
          assert i >= chosen.value;
          assert i <= chosen.value;
        }
      }
    }
  }

  /** Schemas after the chosen one are never looked at: dropping them from the catalog
      changes nothing. */
  lemma LaterSchemasIgnored(f: seq<Tree>, cat: Catalogs, n: nat)
    requires n <= |cat.reports|
    requires exists j :: 0 <= j < n && Truthy(PayloadFor(List(f), cat.reports[j]))
    ensures ReportFromForest(f, cat) == ReportFromForest(f, Catalogs(cat.events, cat.reports[..n]))
  {
    var cut := Catalogs(cat.events, cat.reports[..n]);
    var root := List(f);
    ChooseReportPrefix(root, cat.reports, n);
    var chosen := ChooseReport(root, cat.reports);
    if f != [] && FindCeid(root, cat.events).Some? && FindCeid(root, cat.events).value != 0 {
      var c := FindCeid(root, cat.events).value;
      assert Header(c, cat, chosen) == Header(c, cut, chosen);
      if chosen.Some? {
        assert cut.reports[chosen.value] == cat.reports[chosen.value];
      }
    }
  }

  /** The choice among the first `n` schemas is the choice among all of them, when one
      of the first `n` has a truthy payload. */
  lemma ChooseReportPrefix(root: Tree, reports: seq<ReportSchema>, n: nat)
    requires n <= |reports|
    requires exists j :: 0 <= j < n && Truthy(PayloadFor(root, reports[j]))
    ensures ChooseReport(root, reports) == ChooseReport(root, reports[..n])
  {
    var ps := Payloads(root, reports);
    assert Payloads(root, reports[..n]) == ps[..n];
    var j :| 0 <= j < n && Truthy(PayloadFor(root, reports[j]));
    assert Truthy(ps[j]);
    FirstTruthyPrefix(ps, n, 0);
  }

  lemma {:induction false} FirstTruthyPrefix(ps: seq<Option<Tree>>, n: nat, i: nat)
    requires i <= n <= |ps|
    requires exists j :: i <= j < n && Truthy(ps[j])
    ensures FirstTruthy(ps, i) == FirstTruthy(ps[..n], i)
    decreases n - i
  {
    assert ps[..n][i] == ps[i];
    if !Truthy(ps[i]) {
      FirstTruthyPrefix(ps, n, i + 1);
    }
  }

  /** Positional mapping: with distinct field names, field `k` of the chosen schema holds
      payload element `k` when the payload has that many elements, and is absent
      otherwise. */
  lemma ReportFieldMapping(f: seq<Tree>, cat: Catalogs, i: nat)
    requires ReservedFree(cat)
    requires f != [] && FindCeid(List(f), cat.events).Some? && FindCeid(List(f), cat.events).value != 0
    requires ChooseReport(List(f), cat.reports) == Some(i)
    requires var fs := cat.reports[i].fields;
             forall a, b :: 0 <= a < b < |fs| ==> fs[a] != fs[b]
    ensures var r := ReportFromForest(f, cat);
            var fs := cat.reports[i].fields;
            var es := Entries(PayloadFor(List(f), cat.reports[i]).value);
            && (forall k :: 0 <= k < |fs| && k < |es| ==> fs[k] in r && r[fs[k]] == Item(es[k]))
            && (forall k :: 0 <= k < |fs| && k >= |es| ==> fs[k] !in r)
  {
    var r := ReportFromForest(f, cat);
    var fs := cat.reports[i].fields;
    var es := Entries(PayloadFor(List(f), cat.reports[i]).value);
    var m := if |fs| < |es| then |fs| else |es|;
    var c := FindCeid(List(f), cat.events).value;
    DistinctNames(fs, m);
    forall k | m <= k < |fs| ensures fs[k] !in r {
      assert fs[k] != "CEID" && fs[k] != "AlarmID" && fs[k] != "RPTID";
    }
  }

  /** With distinct names, no name among the first `m` occurs again among them, and no
      later name occurs among them. */
  lemma DistinctNames(fs: seq<string>, m: nat)
    requires m <= |fs|
    requires forall a, b :: 0 <= a < b < |fs| ==> fs[a] != fs[b]
    ensures forall k :: 0 <= k < m ==> fs[k] !in fs[k + 1..m]
    ensures forall k :: m <= k < |fs| ==> fs[k] !in fs[..m]
  {
    forall k | 0 <= k < m ensures fs[k] !in fs[k + 1..m] {
      var later := fs[k + 1..m];
      forall x | 0 <= x < |later| ensures later[x] != fs[k] {
        assert later[x] == fs[k + 1 + x];
      }
    }
    forall k | m <= k < |fs| ensures fs[k] !in fs[..m] {
      forall x | 0 <= x < |fs[..m]| ensures fs[..m][x] != fs[k] {
        assert fs[..m][x] == fs[x];
      }
    }
  }

  /** With no report schema matching, an S6F11 body carrying a known event code yields the
      code alone. The body `<L[2] <A[1] '5'> <L[1] <A[1] 'OK'>>>` builds a single list
      whose first leaf is `5`, so with event 5 in the catalog and no report key 5 the
      result is exactly `{CEID: 5}`. */
  lemma ScenarioEventOnly(cat: Catalogs)
    requires cat.events == map[5 := "Collection Event: Idle"]
    requires forall j :: 0 <= j < |cat.reports| ==> cat.reports[j].id != 5
    ensures ReportFromForest([List([Leaf("5"), List([Leaf("OK")])])], cat) == map["CEID" := Num(5)]
  {
    var t := List([Leaf("5"), List([Leaf("OK")])]);
    var f := [t];
    var root := List(f);
    assert IsDigitString("5") && DecimalValue("5") == 5 by {
      assert "5"[..0] == [];
    }
    assert FindCeid(t, cat.events) == Some(5) by {
      assert FindCeid(Leaf("5"), cat.events) == Some(5);
    }
    assert FindCeid(root, cat.events) == Some(5);
    forall j | 0 <= j < |cat.reports| ensures !Truthy(PayloadFor(root, cat.reports[j])) {
      var key := Key(cat.reports[j].id);
      KeyIsNotFive(cat.reports[j].id);
      assert key != "5";
      var inner := List([Leaf("OK")]);
      assert [Leaf("OK")][1..] == [];
      assert FindValuesIn([Leaf("OK")], key).None?;
      assert FindValues(inner, key).None?;
      assert [Leaf("5"), inner][1..] == [inner];
      assert [inner][1..] == [];
      assert FindValuesIn([inner], key).None?;
      assert FindValuesIn([Leaf("5"), inner], key).None?;
      assert FindValues(t, key).None?;
      assert [t][1..] == [];
      assert FindValuesIn(f, key).None?;
      assert FindValues(root, key).None?;
    }
    assert !Contains("Collection Event: Idle", "Alarm") by {
      NoAlarmInIdle();
    }
  }

  /** Distinct report keys print differently. */
  lemma KeyIsNotFive(id: int)
    requires id != 5
    ensures Key(id) != "5"
  {
    if id >= 0 {
      assert "5"[..0] == [];
      assert DecimalValue("5") == 5;
    }
  }

  lemma NoAlarmInIdle()
    ensures !Contains("Collection Event: Idle", "Alarm")
  {
    MissingFirstChar("Collection Event: Idle", "Alarm");
  }

  /** The whole S6F11 path on a body of that shape, whatever counts it declares; the
      sample `<L[2] <A[1] '5'> <L[1] <A[1] 'OK'>>>` is one of them (`SampleBodyShape`). */
  lemma ScenarioEventOnlyText(cat: Catalogs, a: string, b: string, c: string, e: string)
    requires cat.events == map[5 := "Collection Event: Idle"]
    requires forall j :: 0 <= j < |cat.reports| ==> cat.reports[j].id != 5
    requires IsDigitString(a) && IsDigitString(b) && IsDigitString(c) && IsDigitString(e)
    ensures ParseReport(PairBody(a, b, "5", c, e, "OK"), cat) == map["CEID" := Num(5)]
  {
    assert Renderable("5") && Renderable("OK");
    PairBodyParse(a, b, "5", c, e, "OK");
    ScenarioEventOnly(cat);
  }
}
