/** The decisions of the mixin as functions of a record's state: which fields
    each endpoint must be sent, the snapshot taken before a write, whether an
    endpoint can be skipped, and which tasks a `*_via_api` hook creates. */
module Changes {
  import opened Values
  import opened Seqs
  import opened Paths
  import opened Naming

  /** What the engine reads of a record: its attribute graph, the
      `skip_api_notify` flag, the `@fields_changed` snapshot (None until one is
      taken) and the endpoints that already have a log row. */
  datatype Record = Record(
    attrs: map<string, Value>,
    skip: bool,
    fieldsChanged: Option<map<string, seq<string>>>,
    logs: set<string>)

  /** A persisted sync task, as `create_task` fills it in; `fieldsUpdated`
      is None (Ruby `nil`) when the snapshot has no entry for the endpoint. */
  datatype Task = Task(
    id: nat,
    endpoint: string,
    verb: string,
    fieldsUpdated: Option<seq<string>>,
    identificators: map<string, Value>)

  // ---------------------------------------------------------------------
  // must_sync? and fields_to_change
  // ---------------------------------------------------------------------

  /** `must_sync?`: the record has no log row for the endpoint yet. */
  predicate MustSync(logs: set<string>, endpoint: string) {
    endpoint !in logs
  }

  /** `fields_to_change`: the watched fields, in order, whose `field_changed?`
      is truthy, or all of them when `must_sync` holds. `field_changed?` is
      asked first, so a field it cannot answer raises even under `must_sync`. */
  function FieldsToChange(root: Value, fields: seq<string>, mustSync: bool): Result<seq<string>>
    decreases |fields|
  {
    if fields == [] then Ok([])
    else
      match FieldChanged(root, fields[0])
      case Err(e) => Err(e)
      case Ok(changed) =>
        match FieldsToChange(root, fields[1..], mustSync)
        case Err(e) => Err(e)
        case Ok(rest) => Ok(if Truthy(changed) || mustSync then [fields[0]] + rest else rest)
  }

  /** Every watched field's dirty query can be answered. */
  ghost predicate ChangesReadable(root: Value, fields: seq<string>) {
    forall i :: 0 <= i < |fields| ==> FieldChanged(root, fields[i]).Ok?
  }

  /** A field is selected: its dirty query answers truthy, or `must_sync`. */
  ghost predicate Selected(root: Value, field: string, mustSync: bool) {
    FieldChanged(root, field).Ok? && (Truthy(FieldChanged(root, field).value) || mustSync)
  }

  /** `fields_to_change` raises exactly when some watched field cannot answer
      its dirty query. */
  lemma {:induction false} FieldsToChangeRaises(root: Value, fields: seq<string>, mustSync: bool)
    ensures FieldsToChange(root, fields, mustSync).Ok? <==> ChangesReadable(root, fields)
    decreases |fields|
  {
    if fields != [] {
      FieldsToChangeRaises(root, fields[1..], mustSync);
      assert ChangesReadable(root, fields) <==>
             FieldChanged(root, fields[0]).Ok? && ChangesReadable(root, fields[1..]) by {
        forall i | 0 <= i < |fields| - 1 ensures fields[1..][i] == fields[i + 1] { }
      }
    }
  }

  /** `fields_to_change` is an order-preserving selection of the watched
      fields: it keeps exactly the selected ones. */
  lemma {:induction false} FieldsToChangeSelection(root: Value, fields: seq<string>, mustSync: bool)
    requires FieldsToChange(root, fields, mustSync).Ok?
    ensures var r := FieldsToChange(root, fields, mustSync).value;
            && IsSubsequence(r, fields)
            && (forall x :: x in r ==> Selected(root, x, mustSync))
            && (forall i :: 0 <= i < |fields| && Selected(root, fields[i], mustSync) ==> fields[i] in r)
    decreases |fields|
  {
    if fields != [] {
      var rest := FieldsToChange(root, fields[1..], mustSync).value;
      var r := FieldsToChange(root, fields, mustSync).value;
      FieldsToChangeSelection(root, fields[1..], mustSync);
      if Selected(root, fields[0], mustSync) {
        assert r == [fields[0]] + rest;
        assert r[1..] == rest;
      } else {
        assert r == rest;
        assert IsSubsequence(r, fields) by {
          if r != [] {
            assert IsSubsequence(r, fields[1..]);
          }
        }
      }
      forall i | 0 <= i < |fields| && Selected(root, fields[i], mustSync)
        ensures fields[i] in r
      {
        if i > 0 {
          assert fields[1..][i - 1] == fields[i];
        }
      }
    }
  }

  /** With no log row for the endpoint, every watched field is sent, in the
      configured order, whether or not anything changed. */
  lemma {:induction false} FieldsToChangeMustSync(root: Value, fields: seq<string>)
    requires ChangesReadable(root, fields)
    ensures FieldsToChange(root, fields, true) == Ok(fields)
    decreases |fields|
  {
    if fields != [] {
      assert ChangesReadable(root, fields[1..]) by {
        forall i | 0 <= i < |fields| - 1 ensures FieldChanged(root, fields[1..][i]).Ok? {
          assert fields[1..][i] == fields[i + 1];
        }
      }
      FieldsToChangeMustSync(root, fields[1..]);
      assert FieldChanged(root, fields[0]).Ok?;
      assert [fields[0]] + fields[1..] == fields;
    }
  }

  /** With a log row and no field reporting a change, nothing is selected. */
  lemma {:induction false} FieldsToChangeNothingChanged(root: Value, fields: seq<string>)
    requires forall i :: 0 <= i < |fields| ==>
               FieldChanged(root, fields[i]).Ok? && !Truthy(FieldChanged(root, fields[i]).value)
    ensures FieldsToChange(root, fields, false) == Ok([])
    decreases |fields|
  {
    if fields != [] {
      assert forall i :: 0 <= i < |fields| - 1 ==> fields[1..][i] == fields[i + 1];
      FieldsToChangeNothingChanged(root, fields[1..]);
      assert FieldChanged(root, fields[0]).Ok?;
    }
  }

  // ---------------------------------------------------------------------
  // set_fields_changed and fields_changed
  // ---------------------------------------------------------------------

  /** The hash `set_fields_changed` builds: each endpoint mapped to its
      `fields_to_change`. */
  function Snapshot(root: Value, fields: seq<string>, logs: set<string>, endpoints: seq<string>)
    : (r: Result<map<string, seq<string>>>)
    ensures r.Ok? ==> r.value.Keys == (set e | e in endpoints)
    decreases |endpoints|
  {
    if endpoints == [] then Ok(map[])
    else
      var e := endpoints[|endpoints| - 1];
      match Snapshot(root, fields, logs, endpoints[..|endpoints| - 1])
      case Err(err) => Err(err)
      case Ok(m) =>
        match FieldsToChange(root, fields, MustSync(logs, e))
        case Err(err) => Err(err)
        case Ok(fs) => Ok(m[e := fs])
  }

  /** The snapshot has one entry per endpoint, each that endpoint's
      `fields_to_change`; it raises only if some watched field cannot answer
      its dirty query and there is an endpoint to ask for. */
  lemma {:induction false} SnapshotSpec(root: Value, fields: seq<string>, logs: set<string>, endpoints: seq<string>)
    ensures var s := Snapshot(root, fields, logs, endpoints);
            && (s.Ok? <==> endpoints == [] || ChangesReadable(root, fields))
            && (s.Ok? ==> s.value.Keys == (set e | e in endpoints))
            && (s.Ok? ==> forall e :: e in endpoints ==>
                  FieldsToChange(root, fields, MustSync(logs, e)) == Ok(s.value[e]))
    decreases |endpoints|
  {
    if endpoints != [] {
      var init := endpoints[..|endpoints| - 1];
      var e := endpoints[|endpoints| - 1];
      SnapshotSpec(root, fields, logs, init);
      FieldsToChangeRaises(root, fields, MustSync(logs, e));
      FieldsToChangeRaises(root, fields, false);
      assert endpoints == init + [e];
      if init != [] {
        FieldsToChangeRaises(root, fields, MustSync(logs, init[0]));
      }
    }
  }

  /** Once a prefix of the endpoints raises, the whole snapshot raises the
      same error: `set_fields_changed` stops at the first failure. */
  lemma {:induction false} SnapshotStops(root: Value, fields: seq<string>, logs: set<string>, endpoints: seq<string>, k: nat)
    requires k <= |endpoints|
    requires Snapshot(root, fields, logs, endpoints[..k]).Err?
    ensures Snapshot(root, fields, logs, endpoints) == Snapshot(root, fields, logs, endpoints[..k])
    decreases |endpoints| - k
  {
    if k < |endpoints| {
      var n := |endpoints| - 1;
      assert endpoints[..n][..k] == endpoints[..k];
      SnapshotStops(root, fields, logs, endpoints[..n], k);
    } else {
      assert endpoints[..k] == endpoints;
    }
  }

  /** `fields_changed(endpoint)`: `[]` before any snapshot, else the
      snapshot's entry (`nil`, here None, for an endpoint it does not hold). */
  function FieldsChanged(snapshot: Option<map<string, seq<string>>>, endpoint: string): Option<seq<string>> {
    match snapshot
    case None => Some([])
    case Some(m) => if endpoint in m then Some(m[endpoint]) else None
  }

  /** Reading back: before any snapshot every endpoint reads `[]`; after a
      snapshot taken over the endpoints, each configured endpoint reads its
      `fields_to_change` and any other endpoint reads `nil`. */
  lemma {:induction false} FieldsChangedSpec(root: Value, fields: seq<string>, logs: set<string>,
                                             endpoints: seq<string>, endpoint: string)
    ensures FieldsChanged(None, endpoint) == Some([])
    ensures var s := Snapshot(root, fields, logs, endpoints);
            s.Ok? ==>
              && (endpoint in endpoints ==>
                    FieldsChanged(Some(s.value), endpoint).Some? &&
                    FieldsToChange(root, fields, MustSync(logs, endpoint)) == Ok(FieldsChanged(Some(s.value), endpoint).value))
              && (endpoint !in endpoints ==> FieldsChanged(Some(s.value), endpoint) == None)
  {
    SnapshotSpec(root, fields, logs, endpoints);
  }

  // ---------------------------------------------------------------------
  // get_identificators and fill_fields_with_values
  // ---------------------------------------------------------------------

  /** The hash fold both readers share: `key => get_value(path)` for every
      pair, in order. */
  function ResolveInto(root: Value, pairs: seq<(string, string)>): Result<map<string, Value>>
    decreases |pairs|
  {
    if pairs == [] then Ok(map[])
    else
      var (key, path) := pairs[|pairs| - 1];
      match ResolveInto(root, pairs[..|pairs| - 1])
      case Err(e) => Err(e)
      case Ok(m) =>
        match GetValue(root, path)
        case Err(e) => Err(e)
        case Ok(v) => Ok(m[key := v])
  }

  /** The keys a list of pairs names. */
  ghost function KeysOf(pairs: seq<(string, string)>): set<string> {
    set i | 0 <= i < |pairs| :: pairs[i].0
  }

  lemma {:induction false} KeysOfSnoc(pairs: seq<(string, string)>)
    requires pairs != []
    ensures KeysOf(pairs) == KeysOf(pairs[..|pairs| - 1]) + {pairs[|pairs| - 1].0}
  {
    var n := |pairs| - 1;
    forall k | k in KeysOf(pairs) ensures k in KeysOf(pairs[..n]) + {pairs[n].0} {
      var i :| 0 <= i < |pairs| && pairs[i].0 == k;
      if i < n { assert pairs[..n][i].0 == k; }
    }
    forall k | k in KeysOf(pairs[..n]) ensures k in KeysOf(pairs) {
      var i :| 0 <= i < n && pairs[..n][i].0 == k;
      assert pairs[i].0 == k;
    }
  }

  /** The fold succeeds exactly when every path resolves. */
  lemma {:induction false} ResolveIntoRaises(root: Value, pairs: seq<(string, string)>)
    ensures ResolveInto(root, pairs).Ok? <==> forall i :: 0 <= i < |pairs| ==> GetValue(root, pairs[i].1).Ok?
    decreases |pairs|
  {
    if pairs != [] {
      var n := |pairs| - 1;
      ResolveIntoRaises(root, pairs[..n]);
      assert forall i :: 0 <= i < n ==> pairs[..n][i] == pairs[i];
    }
  }

  /** Position `i` holds the last pair with its key. */
  ghost predicate IsLast(pairs: seq<(string, string)>, i: int) {
    0 <= i < |pairs| && forall j :: i < j < |pairs| ==> pairs[j].0 != pairs[i].0
  }

  /** On success the hash has exactly the given keys, each holding the value
      read for its last pair. */
  lemma {:induction false} ResolveIntoSpec(root: Value, pairs: seq<(string, string)>)
    requires ResolveInto(root, pairs).Ok?
    ensures var m := ResolveInto(root, pairs).value;
            && m.Keys == KeysOf(pairs)
            && forall i :: IsLast(pairs, i) ==> pairs[i].0 in m && GetValue(root, pairs[i].1) == Ok(m[pairs[i].0])
  {
    ResolveIntoKeys(root, pairs);
    ResolveIntoValues(root, pairs);
  }

  lemma {:induction false} ResolveIntoKeys(root: Value, pairs: seq<(string, string)>)
    requires ResolveInto(root, pairs).Ok?
    ensures ResolveInto(root, pairs).value.Keys == KeysOf(pairs)
    decreases |pairs|
  {
    if pairs != [] {
      var n := |pairs| - 1;
      ResolveIntoKeys(root, pairs[..n]);
      KeysOfSnoc(pairs);
    }
  }

  lemma {:induction false} ResolveIntoValues(root: Value, pairs: seq<(string, string)>)
    requires ResolveInto(root, pairs).Ok?
    ensures var m := ResolveInto(root, pairs).value;
            forall i :: IsLast(pairs, i) ==> pairs[i].0 in m && GetValue(root, pairs[i].1) == Ok(m[pairs[i].0])
    decreases |pairs|
  {
    if pairs != [] {
      var n := |pairs| - 1;
      var init := pairs[..n];
      ResolveIntoValues(root, init);
      var m := ResolveInto(root, init).value;
      var r := ResolveInto(root, pairs).value;
      var v := GetValue(root, pairs[n].1).value;
      assert r == m[pairs[n].0 := v];
      forall i | IsLast(pairs, i)
        ensures pairs[i].0 in r && GetValue(root, pairs[i].1) == Ok(r[pairs[i].0])
      {
        if i < n {
          assert pairs[n].0 != pairs[i].0;
          assert init[i] == pairs[i];
          assert IsLast(init, i) by {
            forall j | i < j < n ensures init[j].0 != init[i].0 {
              assert init[j] == pairs[j];
            }
          }
        }
      }
    }
  }

  /** `get_identificators`: the configured keys mapped to their resolved
      values. */
  function GetIdentificators(root: Value, identificators: seq<(string, string)>): Result<map<string, Value>> {
    ResolveInto(root, identificators)
  }

  /** A task's identificators carry exactly the configured keys, each with
      the value its path reads. */
  lemma {:induction false} GetIdentificatorsSpec(root: Value, identificators: seq<(string, string)>)
    requires DistinctKeys(identificators)
    requires GetIdentificators(root, identificators).Ok?
    ensures var m := GetIdentificators(root, identificators).value;
            && m.Keys == KeysOf(identificators)
            && forall i :: 0 <= i < |identificators| ==>
                 identificators[i].0 in m && GetValue(root, identificators[i].1) == Ok(m[identificators[i].0])
  {
    ResolveIntoSpec(root, identificators);
    forall i | 0 <= i < |identificators| ensures IsLast(identificators, i) { }
  }

  /** `fill_fields_with_values`: each field name mapped to its current value. */
  function FillFieldsWithValues(root: Value, fields: seq<string>): Result<map<string, Value>> {
    ResolveInto(root, seq(|fields|, i requires 0 <= i < |fields| => (fields[i], fields[i])))
  }

  /** The payload holds every given field and nothing else, each with the
      value `get_value` reads for it; it raises exactly when one of them
      cannot be read. */
  lemma {:induction false} FillFieldsWithValuesSpec(root: Value, fields: seq<string>)
    ensures var r := FillFieldsWithValues(root, fields);
            && (r.Ok? <==> forall i :: 0 <= i < |fields| ==> GetValue(root, fields[i]).Ok?)
            && (r.Ok? ==> r.value.Keys == (set f | f in fields))
            && (r.Ok? ==> forall f :: f in fields ==> GetValue(root, f) == Ok(r.value[f]))
  {
    var pairs := seq(|fields|, i requires 0 <= i < |fields| => (fields[i], fields[i]));
    ResolveIntoRaises(root, pairs);
    var r := FillFieldsWithValues(root, fields);
    if r.Ok? {
      ResolveIntoSpec(root, pairs);
      assert KeysOf(pairs) == set f | f in fields by {
        forall f | f in fields ensures f in KeysOf(pairs) {
          var i :| 0 <= i < |fields| && fields[i] == f;
          assert pairs[i].0 == f;
        }
      }
      forall f | f in fields ensures GetValue(root, f) == Ok(r.value[f]) {
        var i :| 0 <= i < |fields| && fields[i] == f;
        var last := LastIndexOf(pairs, i);
        assert IsLast(pairs, last);
        assert pairs[last].0 == f && pairs[last].1 == f;
      }
    }
  }

  /** The last position holding the same key as position `i`. */
  function LastIndexOf(pairs: seq<(string, string)>, i: nat): (k: nat)
    requires i < |pairs|
    ensures i <= k < |pairs| && pairs[k].0 == pairs[i].0
    ensures forall j :: k < j < |pairs| ==> pairs[j].0 != pairs[i].0
    decreases |pairs| - i
  {
    if exists j :: i < j < |pairs| && pairs[j].0 == pairs[i].0 then
      var j :| i < j < |pairs| && pairs[j].0 == pairs[i].0;
      LastIndexOf(pairs, j)
    else i
  }

  // ---------------------------------------------------------------------
  // no_need_to_synchronize?
  // ---------------------------------------------------------------------

  /** The endpoint's `skip_synchronize` option, if the class defines one,
      names a method of the record whose truthiness decides the skip. */
  function SkipOption(cfg: Config, attrs: map<string, Value>, endpoint: string): Result<bool> {
    var name := SkipOptionName(endpoint);
    if name in cfg.classOptions then
      match Send(Obj(attrs), cfg.classOptions[name])
      case Err(e) => Err(e)
      case Ok(v) => Ok(Truthy(v))
    else Ok(false)
  }

  /** `no_need_to_synchronize?(method, endpoint)`, with its checks in order:
      the opt-out flag, the endpoint's skip option, then the empty diff
      (never for `delete`). */
  function NoNeedToSynchronize(cfg: Config, rec: Record, verb: string, endpoint: string): (r: Result<bool>)
  {
    if rec.skip then Ok(true)
    else
      match SkipOption(cfg, rec.attrs, endpoint)
      case Err(e) => Err(e)
      case Ok(skipIt) =>
        if skipIt then Ok(true)
        else if verb != "delete" then
          match FieldsChanged(rec.fieldsChanged, endpoint)
          case None => Err(NoMethod("empty?"))   // nil.empty?
          case Some(fs) => Ok(fs == [])
        else Ok(false)
  }

  /** What each check of `no_need_to_synchronize?` decides, and when the
      answer is "synchronize". */
  lemma {:induction false} NoNeedToSynchronizeSpec(cfg: Config, rec: Record, verb: string, endpoint: string)
    ensures rec.skip ==> NoNeedToSynchronize(cfg, rec, verb, endpoint) == Ok(true)
    ensures !rec.skip && SkipOption(cfg, rec.attrs, endpoint) == Ok(true) ==> NoNeedToSynchronize(cfg, rec, verb, endpoint) == Ok(true)
    ensures verb == "delete" && !rec.skip && SkipOption(cfg, rec.attrs, endpoint).Ok? ==>
              NoNeedToSynchronize(cfg, rec, verb, endpoint) == SkipOption(cfg, rec.attrs, endpoint)
    ensures verb != "delete" && !rec.skip && SkipOption(cfg, rec.attrs, endpoint) == Ok(false)
            && FieldsChanged(rec.fieldsChanged, endpoint).Some? ==>
              NoNeedToSynchronize(cfg, rec, verb, endpoint) == Ok(FieldsChanged(rec.fieldsChanged, endpoint).value == [])
    ensures NoNeedToSynchronize(cfg, rec, verb, endpoint) == Ok(false) <==>
              && !rec.skip
              && SkipOption(cfg, rec.attrs, endpoint) == Ok(false)
              && (verb == "delete" || (FieldsChanged(rec.fieldsChanged, endpoint).Some? &&
                                       FieldsChanged(rec.fieldsChanged, endpoint).value != []))
  {
  }

  // ---------------------------------------------------------------------
  // The `*_via_api` fan-out
  // ---------------------------------------------------------------------

  /** The tasks a `*_via_api` hook creates, and the error that stops it, if
      any (tasks created before the error stay). */
  datatype Fanout = Fanout(tasks: seq<Task>, raised: Option<Error>)

  /** `endpoints.each_pair { create_task ... unless no_need_to_synchronize? }`
      with ids handed out from `nextId`. */
  function PlanFanout(cfg: Config, rec: Record, verb: string, endpoints: seq<string>, nextId: nat): Fanout
    decreases |endpoints|
  {
    if endpoints == [] then Fanout([], None)
    else
      var e := endpoints[0];
      match NoNeedToSynchronize(cfg, rec, verb, e)
      case Err(err) => Fanout([], Some(err))
      case Ok(true) => PlanFanout(cfg, rec, verb, endpoints[1..], nextId)
      case Ok(false) =>
        match GetIdentificators(Obj(rec.attrs), cfg.identificators)
        case Err(err) => Fanout([], Some(err))
        case Ok(ids) =>
          var task := Task(nextId, e, verb, FieldsChanged(rec.fieldsChanged, e), ids);
          var rest := PlanFanout(cfg, rec, verb, endpoints[1..], nextId + 1);
          Fanout([task] + rest.tasks, rest.raised)
  }

  /** The endpoints of a task list, in order. */
  function TaskEndpoints(tasks: seq<Task>): (r: seq<string>)
    ensures |r| == |tasks|
    ensures forall i :: 0 <= i < |tasks| ==> r[i] == tasks[i].endpoint
  {
    seq(|tasks|, i requires 0 <= i < |tasks| => tasks[i].endpoint)
  }

  /** The ids of a task list, in order: what gets enqueued. */
  function TaskIds(tasks: seq<Task>): (r: seq<nat>)
    ensures |r| == |tasks|
    ensures forall i :: 0 <= i < |tasks| ==> r[i] == tasks[i].id
  {
    seq(|tasks|, i requires 0 <= i < |tasks| => tasks[i].id)
  }

  /** An endpoint does not stop the fan-out: its skip check answers, and if a
      task is due, the identificators resolve. */
  ghost predicate Settles(cfg: Config, rec: Record, verb: string, endpoint: string) {
    && NoNeedToSynchronize(cfg, rec, verb, endpoint).Ok?
    && (NoNeedToSynchronize(cfg, rec, verb, endpoint) == Ok(false) ==>
          GetIdentificators(Obj(rec.attrs), cfg.identificators).Ok?)
  }

  /** Every task created is due (`no_need_to_synchronize?` false), carries the
      endpoint's snapshot, the resolved identificators and the verb, gets the
      next id, and the tasks follow the configured endpoint order. */
  lemma {:induction false} PlanFanoutTasks(cfg: Config, rec: Record, verb: string, endpoints: seq<string>, nextId: nat)
    ensures var p := PlanFanout(cfg, rec, verb, endpoints, nextId);
            && IsSubsequence(TaskEndpoints(p.tasks), endpoints)
            && (p.tasks != [] ==> GetIdentificators(Obj(rec.attrs), cfg.identificators).Ok?)
            && forall i :: 0 <= i < |p.tasks| ==>
                 && p.tasks[i].id == nextId + i
                 && p.tasks[i].verb == verb
                 && NoNeedToSynchronize(cfg, rec, verb, p.tasks[i].endpoint) == Ok(false)
                 && FieldsChanged(rec.fieldsChanged, p.tasks[i].endpoint) == p.tasks[i].fieldsUpdated
                 && p.tasks[i].identificators == GetIdentificators(Obj(rec.attrs), cfg.identificators).value
    decreases |endpoints|
  {
    if endpoints != [] {
      var e := endpoints[0];
      var rest := endpoints[1..];
      var p := PlanFanout(cfg, rec, verb, endpoints, nextId);
      match NoNeedToSynchronize(cfg, rec, verb, e)
      case Err(_) =>
      case Ok(true) =>
        PlanFanoutTasks(cfg, rec, verb, rest, nextId);
        var ts := TaskEndpoints(p.tasks);
        if ts != [] {
          assert IsSubsequence(ts, rest);
        }
      case Ok(false) =>
        if GetIdentificators(Obj(rec.attrs), cfg.identificators).Ok? {
          PlanFanoutTasks(cfg, rec, verb, rest, nextId + 1);
          var q := PlanFanout(cfg, rec, verb, rest, nextId + 1);
          assert p.tasks == [p.tasks[0]] + q.tasks;
          assert TaskEndpoints(p.tasks)[1..] == TaskEndpoints(q.tasks);
          forall i | 0 < i < |p.tasks| ensures p.tasks[i] == q.tasks[i - 1] { }
        }
    }
  }

  /** The fan-out stops with an error exactly when some endpoint does not
      settle; otherwise every due endpoint got its task. */
  lemma {:induction false} PlanFanoutComplete(cfg: Config, rec: Record, verb: string, endpoints: seq<string>, nextId: nat)
    ensures var p := PlanFanout(cfg, rec, verb, endpoints, nextId);
            && (p.raised.None? <==> forall i :: 0 <= i < |endpoints| ==> Settles(cfg, rec, verb, endpoints[i]))
            && (p.raised.None? ==>
                  forall i :: 0 <= i < |endpoints| && NoNeedToSynchronize(cfg, rec, verb, endpoints[i]) == Ok(false)
                    ==> endpoints[i] in TaskEndpoints(p.tasks))
    decreases |endpoints|
  {
    if endpoints != [] {
      var e := endpoints[0];
      var rest := endpoints[1..];
      assert forall i :: 0 < i < |endpoints| ==> endpoints[i] == rest[i - 1];
      var p := PlanFanout(cfg, rec, verb, endpoints, nextId);
      match NoNeedToSynchronize(cfg, rec, verb, e)
      case Err(_) =>
      case Ok(true) =>
        PlanFanoutComplete(cfg, rec, verb, rest, nextId);
      case Ok(false) =>
        if GetIdentificators(Obj(rec.attrs), cfg.identificators).Ok? {
          PlanFanoutComplete(cfg, rec, verb, rest, nextId + 1);
          var q := PlanFanout(cfg, rec, verb, rest, nextId + 1);
          assert TaskEndpoints(p.tasks) == [e] + TaskEndpoints(q.tasks);
        }
    }
  }

  /** Each endpoint configured once gets at most one task per hook. */
  lemma {:induction false} PlanFanoutOncePerEndpoint(cfg: Config, rec: Record, verb: string, endpoints: seq<string>, nextId: nat)
    requires Distinct(endpoints)
    ensures Distinct(TaskEndpoints(PlanFanout(cfg, rec, verb, endpoints, nextId).tasks))
  {
    PlanFanoutTasks(cfg, rec, verb, endpoints, nextId);
    SubsequenceDistinct(TaskEndpoints(PlanFanout(cfg, rec, verb, endpoints, nextId).tasks), endpoints);
  }

  /** With `skip_api_notify` set, no task is created and nothing raises. */
  lemma {:induction false} PlanFanoutOptOut(cfg: Config, rec: Record, verb: string, endpoints: seq<string>, nextId: nat)
    requires rec.skip
    ensures PlanFanout(cfg, rec, verb, endpoints, nextId) == Fanout([], None)
    decreases |endpoints|
  {
    if endpoints != [] {
      var rest := endpoints[1..];
      PlanFanoutOptOut(cfg, rec, verb, rest, nextId);
    }
  }

  /** The fan-out over a list is the fan-out over its first endpoint followed,
      unless that one raised, by the fan-out over the rest with the ids after
      it: what lets the dispatch loop take one endpoint at a time. */
  lemma {:induction false} PlanFanoutCons(cfg: Config, rec: Record, verb: string, endpoints: seq<string>, nextId: nat)
    requires endpoints != []
    ensures var head := PlanFanout(cfg, rec, verb, endpoints[..1], nextId);
            && (head.raised.Some? ==> head.tasks == [])
            && PlanFanout(cfg, rec, verb, endpoints, nextId) ==
              if head.raised.Some? then head
              else
                var rest := PlanFanout(cfg, rec, verb, endpoints[1..], nextId + |head.tasks|);
                Fanout(head.tasks + rest.tasks, rest.raised)
  {
    var rest := endpoints[1..];
    assert endpoints[..1] == [endpoints[0]];
    assert endpoints[..1][1..] == [];
    assert PlanFanout(cfg, rec, verb, [], nextId) == Fanout([], None);
    assert PlanFanout(cfg, rec, verb, [], nextId + 1) == Fanout([], None);
    var head := PlanFanout(cfg, rec, verb, endpoints[..1], nextId);
    match NoNeedToSynchronize(cfg, rec, verb, endpoints[0])
    case Err(_) =>
    case Ok(true) =>
      assert head == Fanout([], None);
    case Ok(false) =>
      match GetIdentificators(Obj(rec.attrs), cfg.identificators)
      case Err(_) =>
      case Ok(_) =>
        assert |head.tasks| == 1 && head.raised == None;
  }

  /** The endpoints whose skip option does not fire, in configured order. */
  function Unskipped(cfg: Config, attrs: map<string, Value>, endpoints: seq<string>): seq<string>
    decreases |endpoints|
  {
    if endpoints == [] then []
    else (if SkipOption(cfg, attrs, endpoints[0]) == Ok(false) then [endpoints[0]] else [])
         + Unskipped(cfg, attrs, endpoints[1..])
  }

  /** A `delete` reaches exactly the endpoints whose skip option does not
      fire, in configured order, whatever the snapshot holds. */
  lemma {:induction false} PlanFanoutDeleteAlwaysSyncs(cfg: Config, rec: Record, endpoints: seq<string>, nextId: nat)
    requires !rec.skip
    requires forall i :: 0 <= i < |endpoints| ==> SkipOption(cfg, rec.attrs, endpoints[i]).Ok?
    requires GetIdentificators(Obj(rec.attrs), cfg.identificators).Ok?
    ensures var p := PlanFanout(cfg, rec, "delete", endpoints, nextId);
            p.raised == None && TaskEndpoints(p.tasks) == Unskipped(cfg, rec.attrs, endpoints)
    decreases |endpoints|
  {
    if endpoints != [] {
      var e := endpoints[0];
      var rest := endpoints[1..];
      assert forall i :: 0 <= i < |rest| ==> rest[i] == endpoints[i + 1];
      NoNeedToSynchronizeSpec(cfg, rec, "delete", e);
      var p := PlanFanout(cfg, rec, "delete", endpoints, nextId);
      if SkipOption(cfg, rec.attrs, e) == Ok(false) {
        PlanFanoutDeleteAlwaysSyncs(cfg, rec, rest, nextId + 1);
        var q := PlanFanout(cfg, rec, "delete", rest, nextId + 1);
        assert p.tasks == [p.tasks[0]] + q.tasks;
        assert TaskEndpoints(p.tasks) == [e] + TaskEndpoints(q.tasks);
      } else {
        PlanFanoutDeleteAlwaysSyncs(cfg, rec, rest, nextId);
      }
    }
  }

  /** A `post` (or any verb but `delete`) whose snapshot is empty for every
      endpoint creates no task. */
  lemma {:induction false} PlanFanoutNoOp(cfg: Config, rec: Record, verb: string, endpoints: seq<string>, nextId: nat)
    requires verb != "delete"
    requires forall i :: 0 <= i < |endpoints| ==> FieldsChanged(rec.fieldsChanged, endpoints[i]) == Some([])
    ensures PlanFanout(cfg, rec, verb, endpoints, nextId).tasks == []
    decreases |endpoints|
  {
    if endpoints != [] {
      var rest := endpoints[1..];
      assert forall i :: 0 <= i < |rest| ==> rest[i] == endpoints[i + 1];
      PlanFanoutNoOp(cfg, rec, verb, rest, nextId);
    }
  }
}
