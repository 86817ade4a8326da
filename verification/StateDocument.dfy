/** The state file as a document: what each schema can hold, how it is read, and that reading never
    hides an unrestored record. */
module StateDocument {
  import opened GuardTypes
  import opened GuardProtocol

  datatype Json =
    | Null
    | Bool(b: bool)
    | Num(n: int)
    | Str(s: string)
    | List(items: seq<Json>)
    | Obj(fields: seq<(string, Json)>)

  datatype FileText = Missing | Garbled | Parsed(doc: Json)

  datatype Status = ABSENT | OK | UNREADABLE

  datatype Loaded = Loaded(rec: Option<Json>, status: Status)

  const NOT_READABLE := Loaded(None, UNREADABLE)

  // ----- reading -----

  predicate Truthy(j: Json) {
    match j
    case Null => false
    case Bool(b) => b
    case Num(n) => n != 0
    case Str(s) => s != ""
    case List(items) => items != []
    case Obj(fields) => fields != []
  }

  function Lookup(fields: seq<(string, Json)>, key: string): Option<Json> {
    if fields == [] then None
    else if fields[0].0 == key then Some(fields[0].1)
    else Lookup(fields[1..], key)
  }

  function Get(j: Json, key: string): Option<Json> {
    if j.Obj? then Lookup(j.fields, key) else None
  }

  predicate Has(j: Json, key: string) {
    Get(j, key).Some?
  }

  /** `restored` is required: a record without it did not come from this module. */
  predicate Valid(rec: Json) {
    Has(rec, "pid") && Has(rec, "restored")
  }

  predicate Unrestored(rec: Json) {
    Valid(rec) && !Truthy(Get(rec, "restored").value)
  }

  function Values(fields: seq<(string, Json)>): (vs: seq<Json>)
    ensures |vs| == |fields| && forall i :: 0 <= i < |fields| ==> vs[i] == fields[i].1
  {
    seq(|fields|, i requires 0 <= i < |fields| => fields[i].1)
  }

  function Outstanding(recs: seq<Json>): seq<Json> {
    if recs == [] then []
    else if Unrestored(recs[0]) then [recs[0]] + Outstanding(recs[1..])
    else Outstanding(recs[1..])
  }

  /** Schema 2 kept one record per process. */
  function LoadGuards(guards: Json): Loaded {
    if !guards.Obj? then NOT_READABLE else
    var recs := Values(guards.fields);
    if exists i :: 0 <= i < |recs| && !Valid(recs[i]) then NOT_READABLE else
    var unrestored := Outstanding(recs);
    if |unrestored| > 1 then NOT_READABLE
    else if |unrestored| == 1 then Loaded(Some(unrestored[0]), OK)
    else if recs != [] then Loaded(Some(recs[0]), OK)
    else NOT_READABLE
  }

  function LoadState(f: FileText): Loaded {
    match f
    case Missing => Loaded(None, ABSENT)
    case Garbled => NOT_READABLE
    case Parsed(doc) =>
      if !doc.Obj? then NOT_READABLE
      else if Has(doc, "record") then
        if Valid(Get(doc, "record").value) then Loaded(Get(doc, "record"), OK) else NOT_READABLE
      else if Has(doc, "guards") then LoadGuards(Get(doc, "guards").value)
      else if Valid(doc) then Loaded(Some(doc), OK)
      else NOT_READABLE
  }

  // ----- nothing is hidden -----

  /** The places where each schema keeps a record. */
  predicate InSchema3(doc: Json, r: Json) {
    Get(doc, "record") == Some(r)
  }

  predicate InSchema2(doc: Json, r: Json) {
    Has(doc, "guards") && Get(doc, "guards").value.Obj? && r in Values(Get(doc, "guards").value.fields)
  }

  predicate InSchema1(doc: Json, r: Json) {
    doc == r
  }

  /** In any of these places. */
  predicate HeldIn(doc: Json, r: Json) {
    InSchema3(doc, r) || InSchema2(doc, r) || InSchema1(doc, r)
  }

  /** Every version of the writer uses one place. */
  predicate OneSchema(doc: Json) {
    && !(Has(doc, "record") && Has(doc, "guards"))
    && !(Has(doc, "record") && Valid(doc))
    && !(Has(doc, "guards") && Valid(doc))
  }

  /** Guards that can be read: at least one, all of them well-formed, at most one outstanding. */
  predicate GuardsReadable(guards: Json) {
    && guards.Obj? && guards.fields != []
    && (forall r :: r in Values(guards.fields) ==> Valid(r))
    && |Outstanding(Values(guards.fields))| <= 1
  }

  /** The reader stops at a place before one that holds an outstanding record: at a well-formed
      "record" beside other outstanding guards or an outstanding document, or at readable "guards"
      inside an outstanding document. */
  ghost predicate Shadowed(doc: Json) {
    if Has(doc, "record") then
      && Valid(Get(doc, "record").value)
      && (Unrestored(doc) || exists r :: InSchema2(doc, r) && Unrestored(r) && !InSchema3(doc, r))
    else
      Has(doc, "guards") && GuardsReadable(Get(doc, "guards").value) && Unrestored(doc)
  }

  /** Each well-formed unrestored record, in whichever place, is the one that is read, or the file is
      called unreadable; none is reported settled or absent. */
  ghost predicate NothingHidden(doc: Json) {
    forall r :: HeldIn(doc, r) && Unrestored(r) ==>
      LoadState(Parsed(doc)) == Loaded(Some(r), OK) || LoadState(Parsed(doc)) == NOT_READABLE
  }

  lemma GuardsReadableIff(guards: Json)
    ensures LoadGuards(guards).status == OK <==> GuardsReadable(guards)
  {
    if guards.Obj? {
      var recs := Values(guards.fields);
      assert (forall r :: r in recs ==> Valid(r)) <==> !exists i :: 0 <= i < |recs| && !Valid(recs[i]);
    }
  }

  lemma {:induction false} OutstandingHolds(recs: seq<Json>, r: Json)
    ensures r in Outstanding(recs) <==> r in recs && Unrestored(r)
  {
    if recs != [] {
      OutstandingHolds(recs[1..], r);
      assert recs == [recs[0]] + recs[1..];
    }
  }

  lemma GuardsNeverHide(guards: Json, r: Json)
    requires guards.Obj? && r in Values(guards.fields) && Unrestored(r)
    ensures LoadGuards(guards) in {Loaded(Some(r), OK), NOT_READABLE}
  {
    OutstandingHolds(Values(guards.fields), r);
  }

  lemma {:induction false} LookupIsThere(fields: seq<(string, Json)>, key: string)
    ensures Lookup(fields, key).Some? ==> exists i :: 0 <= i < |fields| && fields[i].1 == Lookup(fields, key).value
  {
    if fields != [] && fields[0].0 != key {
      LookupIsThere(fields[1..], key);
      var tail := fields[1..];
      if i :| 0 <= i < |tail| && Lookup(tail, key).Some? && tail[i].1 == Lookup(tail, key).value {
        assert fields[i + 1].1 == Lookup(fields, key).value;
      }
    }
  }

  /** A document is none of the records inside it. */
  lemma NotInItself(doc: Json, key: string)
    ensures Get(doc, key) != Some(doc)
  {
    if doc.Obj? {
      LookupIsThere(doc.fields, key);
    }
  }

  /** What the guards give was among them; settled means that none of them is outstanding. */
  lemma GuardsGiveTheirOwn(guards: Json)
    requires LoadGuards(guards).status == OK
    ensures guards.Obj?
    ensures var got := LoadGuards(guards).rec;
            && got.Some? && Valid(got.value) && got.value in Values(guards.fields)
            && (!Unrestored(got.value) ==> forall r :: r in Values(guards.fields) ==> !Unrestored(r))
  {
    var recs := Values(guards.fields);
    forall r
      ensures r in Outstanding(recs) <==> r in recs && Unrestored(r)
    {
      OutstandingHolds(recs, r);
    }
    if |Outstanding(recs)| == 1 {
      assert Outstanding(recs)[0] in Outstanding(recs);
    }
  }

  lemma {:induction false} ValuesAreInside(guards: Json, doc: Json, r: Json)
    requires Get(doc, "guards") == Some(guards) && guards.Obj? && r in Values(guards.fields)
    ensures r != doc
  {
    LookupIsThere(doc.fields, "guards");
    var i :| 0 <= i < |guards.fields| && Values(guards.fields)[i] == r;
  }

  /** For every document of every schema, well-formed or not: no outstanding record is hidden, exactly
      when none is shadowed by a place that is read before its own. */
  lemma NothingHiddenIff(doc: Json)
    ensures NothingHidden(doc) <==> !Shadowed(doc)
  {
    if Shadowed(doc) {
      ShadowedIsHidden(doc);
    } else {
      forall r | HeldIn(doc, r) && Unrestored(r)
        ensures LoadState(Parsed(doc)) == Loaded(Some(r), OK) || LoadState(Parsed(doc)) == NOT_READABLE
      {
        if !Has(doc, "record") && Has(doc, "guards") {
          GuardsReadableIff(Get(doc, "guards").value);
          if InSchema2(doc, r) {
            GuardsNeverHide(Get(doc, "guards").value, r);
          }
        }
      }
    }
  }

  lemma ShadowedIsHidden(doc: Json)
    requires Shadowed(doc)
    ensures !NothingHidden(doc)
    ensures exists r :: HeldIn(doc, r) && Unrestored(r)
    ensures LoadState(Parsed(doc)).status == OK
  {
    NotInItself(doc, "record");
    if Has(doc, "record") {
      if Unrestored(doc) {
        assert HeldIn(doc, doc);
      } else {
        var r :| InSchema2(doc, r) && Unrestored(r) && !InSchema3(doc, r);
        assert HeldIn(doc, r);
      }
    } else {
      var guards := Get(doc, "guards").value;
      GuardsReadableIff(guards);
      GuardsGiveTheirOwn(guards);
      ValuesAreInside(guards, doc, LoadGuards(guards).rec.value);
      assert HeldIn(doc, doc);
    }
  }

  lemma OneSchemaShadowsNothing(doc: Json)
    requires OneSchema(doc)
    ensures !Shadowed(doc)
  {
  }

  /** What reads as false, as in the language the file's reader is written in. */
  lemma FalsyIff(j: Json)
    ensures !Truthy(j) <==> j in {Null, Bool(false), Num(0), Str(""), List([]), Obj([])}
  {
  }

  /** Nothing is called readable or absent that is not, and nothing readable is refused: a file that is not
      there is absent; and a document is read exactly if the first place that it uses holds what that
      place must hold, of which every record must have a pid and say whether it was restored. */
  lemma ReadableIff(f: FileText)
    ensures LoadState(f).status == ABSENT <==> f == Missing
    ensures LoadState(f).status == OK <==>
              && f.Parsed? && f.doc.Obj?
              && (if Has(f.doc, "record") then
                    Has(Get(f.doc, "record").value, "pid") && Has(Get(f.doc, "record").value, "restored")
                  else if Has(f.doc, "guards") then
                    var guards := Get(f.doc, "guards").value;
                    && guards.Obj? && guards.fields != []
                    && (forall r :: r in Values(guards.fields) ==> Has(r, "pid") && Has(r, "restored"))
                    && |Outstanding(Values(guards.fields))| <= 1
                  else
                    Has(f.doc, "pid") && Has(f.doc, "restored"))
    ensures LoadState(f).status != OK ==> LoadState(f).rec == None
  {
    if f.Parsed? && Has(f.doc, "guards") {
      GuardsReadableIff(Get(f.doc, "guards").value);
    }
  }

  /** Arming is allowed over no file, and over one that is read and says that it was restored. */
  lemma MayArmIff(f: FileText)
    ensures MayArm(f) <==>
              f == Missing ||
              (var got := LoadState(f);
               && got.status == OK && got.rec.Some? && Has(got.rec.value, "restored")
               && Truthy(Get(got.rec.value, "restored").value))
  {
    ReadableIff(f);
    if LoadState(f).status == OK {
      LoadedWasThere(f.doc);
    }
  }

  /** What is read was there: a returned record is a well-formed record of the document; and if it is
      settled, none in the whole document is outstanding, exactly when none is shadowed. */
  lemma LoadedWasThere(doc: Json)
    requires LoadState(Parsed(doc)).status == OK
    ensures var got := LoadState(Parsed(doc)).rec;
            && got.Some? && Valid(got.value) && HeldIn(doc, got.value)
            && (!Unrestored(got.value) ==>
                  ((forall r :: HeldIn(doc, r) ==> !Unrestored(r)) <==> !Shadowed(doc)))
  {
    if !Has(doc, "record") && Has(doc, "guards") {
      GuardsGiveTheirOwn(Get(doc, "guards").value);
    }
    if Shadowed(doc) {
      ShadowedIsHidden(doc);
    } else {
      NothingHiddenIff(doc);
    }
  }

  function SettledBy(pid: int): Json {
    Obj([("pid", Num(pid)), ("restored", Bool(true))])
  }

  function OwedBy(pid: int): Json {
    Obj([("pid", Num(pid)), ("restored", Bool(false))])
  }

  /** A document that mixes two schemas can hide an outstanding record behind a settled one. */
  lemma MixedSchemasHide()
    ensures var doc := Obj([("record", SettledBy(1)), ("guards", Obj([("2", OwedBy(2))]))]);
            && Shadowed(doc)
            && InSchema2(doc, OwedBy(2)) && Unrestored(OwedBy(2))
            && LoadState(Parsed(doc)) == Loaded(Some(SettledBy(1)), OK)
  {
    var doc := Obj([("record", SettledBy(1)), ("guards", Obj([("2", OwedBy(2))]))]);
    assert Get(doc, "record") == Some(SettledBy(1));
    assert doc.fields[1..][0] == ("guards", Obj([("2", OwedBy(2))]));
    assert Get(doc, "guards") == Some(Obj([("2", OwedBy(2))]));
    assert Values([("2", OwedBy(2))])[0] == OwedBy(2);
    assert SettledBy(1).fields[1..][0] == ("restored", Bool(true));
    assert OwedBy(2).fields[1..][0] == ("restored", Bool(false));
    assert InSchema2(doc, OwedBy(2)) && Unrestored(OwedBy(2)) && !InSchema3(doc, OwedBy(2));
  }

  // ----- writing and reading back -----

  function FromInt(o: Option<int>): Json {
    if o.Some? then Num(o.value) else Null
  }

  function FromStr(o: Option<string>): Json {
    if o.Some? then Str(o.value) else Null
  }

  function ToInt(o: Option<Json>): Option<int> {
    if o.Some? && o.value.Num? then Some(o.value.n) else None
  }

  function ToStr(o: Option<Json>): Option<string> {
    if o.Some? && o.value.Str? then Some(o.value.s) else None
  }

  function EncodeSnapshot(s: Snapshot): Json {
    Obj([("index", Num(s.index)),
         ("uuid", FromStr(s.uuid)),
         ("power_limit_mw", FromInt(s.limit)),
         ("power_default_limit_mw", FromInt(s.factory)),
         ("power_min_mw", FromInt(s.minLimit)),
         ("power_max_mw", FromInt(s.maxLimit))])
  }

  function Encode(r: Record): Json {
    Obj([("pid", Num(r.pid)),
         ("started_utc", Num(r.stamp)),
         ("device_index", Num(r.index)),
         ("device_uuid", FromStr(r.uuid)),
         ("snapshot", EncodeSnapshot(r.snapshot)),
         ("clocks_locked", Bool(r.clocksLocked)),
         ("locked_min_mhz", FromInt(r.lockedMin)),
         ("locked_max_mhz", FromInt(r.lockedMax)),
         ("power_limit_written_mw", FromInt(r.powerWritten)),
         ("restored", Bool(r.restored)),
         ("restore_failed", Bool(r.restoreFailed))])
  }

  /** The document the current writer publishes. */
  function WriteState(r: Record): FileText {
    Parsed(Obj([("schema", Num(3)), ("record", Encode(r))]))
  }

  function IntAt(j: Json, key: string): int {
    if ToInt(Get(j, key)).Some? then ToInt(Get(j, key)).value else 0
  }

  predicate FlagAt(j: Json, key: string, missing: bool) {
    if Has(j, key) then Truthy(Get(j, key).value) else missing
  }

  function DecodeSnapshot(j: Json): Snapshot {
    Snapshot(IntAt(j, "index"), ToStr(Get(j, "uuid")), ToInt(Get(j, "power_limit_mw")),
             ToInt(Get(j, "power_default_limit_mw")), ToInt(Get(j, "power_min_mw")), ToInt(Get(j, "power_max_mw")))
  }

  /** The fields as every reader takes them, each with the reader's own default. */
  function Decode(j: Json): Record {
    Record(
      IntAt(j, "pid"),
      if IntAt(j, "started_utc") >= 0 then IntAt(j, "started_utc") else 0,
      IntAt(j, "device_index"),
      ToStr(Get(j, "device_uuid")),
      DecodeSnapshot(if Has(j, "snapshot") then Get(j, "snapshot").value else Obj([])),
      FlagAt(j, "clocks_locked", false),
      ToInt(Get(j, "locked_min_mhz")),
      ToInt(Get(j, "locked_max_mhz")),
      ToInt(Get(j, "power_limit_written_mw")),
      FlagAt(j, "restored", true),
      FlagAt(j, "restore_failed", false))
  }

  /** Looking a key up by position. */
  lemma {:induction false} LookupAt(fields: seq<(string, Json)>, k: nat)
    requires k < |fields|
    requires forall i :: 0 <= i < k ==> fields[i].0 != fields[k].0
    ensures Lookup(fields, fields[k].0) == Some(fields[k].1)
  {
    if k > 0 {
      assert fields[1..][k - 1] == fields[k];
      LookupAt(fields[1..], k - 1);
    }
  }

  lemma {:induction false} LookupMisses(fields: seq<(string, Json)>, key: string)
    requires forall i :: 0 <= i < |fields| ==> fields[i].0 != key
    ensures Lookup(fields, key) == None
  {
    if fields != [] {
      LookupMisses(fields[1..], key);
    }
  }

  predicate DistinctKeys(fields: seq<(string, Json)>) {
    forall i, j :: 0 <= i < j < |fields| ==> fields[i].0 != fields[j].0
  }

  lemma LookupEach(fields: seq<(string, Json)>)
    requires DistinctKeys(fields)
    ensures forall k :: 0 <= k < |fields| ==> Lookup(fields, fields[k].0) == Some(fields[k].1)
  {
    forall k | 0 <= k < |fields|
      ensures Lookup(fields, fields[k].0) == Some(fields[k].1)
    {
      LookupAt(fields, k);
    }
  }

  lemma SnapshotRoundTrip(s: Snapshot)
    ensures DecodeSnapshot(EncodeSnapshot(s)) == s
  {
    var fields := EncodeSnapshot(s).fields;
    LookupEach(fields);
    assert fields[0].0 == "index" && fields[1].0 == "uuid" && fields[2].0 == "power_limit_mw";
    assert fields[3].0 == "power_default_limit_mw" && fields[4].0 == "power_min_mw" && fields[5].0 == "power_max_mw";
  }

  lemma RecordKeys(r: Record)
    ensures DistinctKeys(Encode(r).fields)
  {
  }

  lemma RecordFields(r: Record)
    ensures var j := Encode(r);
            && Get(j, "pid") == Some(Num(r.pid)) && Get(j, "started_utc") == Some(Num(r.stamp))
            && Get(j, "device_index") == Some(Num(r.index)) && Get(j, "device_uuid") == Some(FromStr(r.uuid))
            && Get(j, "snapshot") == Some(EncodeSnapshot(r.snapshot)) &&
                Get(j, "clocks_locked") == Some(Bool(r.clocksLocked))
            && Get(j, "locked_min_mhz") == Some(FromInt(r.lockedMin)) &&
                Get(j, "locked_max_mhz") == Some(FromInt(r.lockedMax))
            && Get(j, "power_limit_written_mw") == Some(FromInt(r.powerWritten))
            && Get(j, "restored") == Some(Bool(r.restored)) && Get(j, "restore_failed") == Some(Bool(r.restoreFailed))
  {
    var fields := Encode(r).fields;
    RecordKeys(r);
    LookupEach(fields);
    assert fields[0].0 == "pid" && fields[1].0 == "started_utc" && fields[2].0 == "device_index" &&
        fields[3].0 == "device_uuid";
    assert fields[4].0 == "snapshot" && fields[5].0 == "clocks_locked" && fields[6].0 == "locked_min_mhz";
    assert fields[7].0 == "locked_max_mhz" && fields[8].0 == "power_limit_written_mw";
    assert fields[9].0 == "restored" && fields[10].0 == "restore_failed";
  }

  lemma RecordRoundTrip(r: Record)
    ensures Valid(Encode(r)) && Decode(Encode(r)) == r
  {
    RecordFields(r);
    SnapshotRoundTrip(r.snapshot);
  }

  // ----- the abstraction the protocol uses -----

  /** What the protocol calls the disk. */
  function DiskOf(f: FileText): Disk {
    var got := LoadState(f);
    match got.status
    case ABSENT => Absent
    case UNREADABLE => Unreadable
    case OK => if got.rec.Some? then Holds(Decode(got.rec.value)) else Absent
  }

  /** Publishing a record and reading it back gives the record; nothing else is in the document. */
  lemma WriteThenLoad(r: Record)
    ensures DiskOf(WriteState(r)) == Holds(r)
    ensures OneSchema(WriteState(r).doc)
  {
    var fields := [("schema", Num(3)), ("record", Encode(r))];
    assert WriteState(r) == Parsed(Obj(fields));
    assert fields[0].0[0] == 's' && fields[1].0[0] == 'r';
    LookupAt(fields, 1);
    LookupMisses(fields, "pid");
    LookupMisses(fields, "guards");
    RecordRoundTrip(r);
  }

  lemma WrittenShadowsNothing(r: Record)
    ensures !Shadowed(WriteState(r).doc)
  {
    WriteThenLoad(r);
    OneSchemaShadowsNothing(WriteState(r).doc);
  }

  /** `_check_not_busy`: refuse over what cannot be read and over what is not restored. */
  predicate MayArm(f: FileText) {
    var got := LoadState(f);
    got.status != UNREADABLE && (got.rec.None? || FlagAt(got.rec.value, "restored", true))
  }

  /** The protocol's busy check is the program's; and passing it means that the document, whatever
      its schema, holds no outstanding record, exactly when none is shadowed. */
  lemma MayArmMeansNothingOutstanding(f: FileText)
    ensures MayArm(f) <==> !Busy(DiskOf(f))
    ensures MayArm(f) && f.Parsed? ==>
              ((forall r :: HeldIn(f.doc, r) ==> !Unrestored(r)) <==> !Shadowed(f.doc))
  {
    if f.Parsed? && LoadState(f).status == OK {
      LoadedWasThere(f.doc);
    }
  }
}
