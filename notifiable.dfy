/** A record that includes the mixin: its opt-out flag, its `@fields_changed`
    snapshot, its sync log and the tasks and queue entries its hooks create,
    with the hooks as methods that change them in place. */
module Notify {
  import opened Values
  import opened Seqs
  import opened Naming
  import opened Changes

  /** How a hook call ends: normally, or with an exception. */
  datatype Outcome = Returned | Raised(error: Error)

  /** The fan-out after the tasks already created. */
  function Prepend(created: seq<Task>, f: Fanout): Fanout {
    Fanout(created + f.tasks, f.raised)
  }

  /** One turn of the dispatch loop, on the plan: the endpoint at `i` either
      raises, ending the plan with what was created so far, or adds its tasks
      to the created prefix and leaves the rest of the endpoints. */
  lemma {:induction false} FanoutStep(cfg: Config, rec: Record, verb: string, eps: seq<string>, i: nat,
                                      nextId: nat, created: seq<Task>)
    requires i < |eps|
    ensures var head := PlanFanout(cfg, rec, verb, [eps[i]], nextId);
            var plan := Prepend(created, PlanFanout(cfg, rec, verb, eps[i..], nextId));
            if head.raised.Some? then plan == Fanout(created, head.raised)
            else plan == Prepend(created + head.tasks, PlanFanout(cfg, rec, verb, eps[i + 1..], nextId + |head.tasks|))
  {
    PlanFanoutCons(cfg, rec, verb, eps[i..], nextId);
    assert eps[i..][..1] == [eps[i]] && eps[i..][1..] == eps[i + 1..];
    var head := PlanFanout(cfg, rec, verb, [eps[i]], nextId);
    var rest := PlanFanout(cfg, rec, verb, eps[i + 1..], nextId + |head.tasks|);
    assert created + (head.tasks + rest.tasks) == (created + head.tasks) + rest.tasks;
  }

  lemma {:induction false} AppendAssoc<T>(a: seq<T>, b: seq<T>, c: seq<T>)
    ensures (a + b) + c == a + (b + c)
  {
  }

  /** The ids of two task lists, one after the other. */
  lemma {:induction false} TaskIdsAppend(a: seq<Task>, b: seq<Task>)
    ensures TaskIds(a + b) == TaskIds(a) + TaskIds(b)
  {
  }

  function OutcomeOf(raised: Option<Error>): Outcome {
    match raised
    case None => Returned
    case Some(e) => Raised(e)
  }

  class Notifiable {
    /** The `api_notify` configuration of the record's class. */
    const cfg: Config
    /** The attribute graph (the ORM writes it; the hooks only read it). */
    var attrs: map<string, Value>
    /** `skip_api_notify`. */
    var skip: bool
    /** `@fields_changed`: None until the first before-write hook. */
    var fieldsChanged: Option<map<string, seq<string>>>
    /** The endpoints with a row in `api_notify_logs`. */
    var logs: set<string>
    /** The record's `api_notify_tasks`, in creation order. */
    var tasks: seq<Task>
    /** The task ids handed to the worker queue, in order. */
    var queue: seq<nat>
    /** The id the next persisted task receives. */
    var nextTaskId: nat

    /** A snapshot covers exactly the configured endpoints; every task's id
        was enqueued once, in creation order, and ids only grow. */
    ghost predicate Valid()
      reads this
    {
      && (fieldsChanged.Some? ==> fieldsChanged.value.Keys == (set e | e in cfg.endpoints))
      && queue == TaskIds(tasks)
      && (forall i, j :: 0 <= i < j < |tasks| ==> tasks[i].id < tasks[j].id)
      && (forall i :: 0 <= i < |tasks| ==> tasks[i].id < nextTaskId)
    }

    /** What the decision functions read of this record. */
    function View(): Record
      reads this
    {
      Record(attrs, skip, fieldsChanged, logs)
    }

    constructor (cfg: Config, attrs: map<string, Value>, logs: set<string>, firstTaskId: nat)
      ensures Valid()
      ensures this.cfg == cfg && this.attrs == attrs && this.logs == logs
      ensures !skip && fieldsChanged == None && tasks == [] && queue == [] && nextTaskId == firstTaskId
    {
      this.cfg := cfg;
      this.attrs := attrs;
      this.logs := logs;
      skip := false;
      fieldsChanged := None;
      tasks := [];
      queue := [];
      nextTaskId := firstTaskId;
    }

    /** `disable_api_notify`. */
    method DisableApiNotify()
      requires Valid()
      modifies this`skip
      ensures Valid()
      ensures skip
    {
      skip := true;
    }

    /** `enable_api_notify`. */
    method EnableApiNotify()
      requires Valid()
      modifies this`skip
      ensures Valid()
      ensures !skip
    {
      skip := false;
    }

    /** `set_fields_changed`: snapshot `fields_to_change` of every endpoint.
        If a dirty query raises, the snapshot is left as it was. */
    method SetFieldsChanged() returns (outcome: Outcome)
      requires Valid()
      modifies this`fieldsChanged
      ensures Valid()
      ensures var s := Snapshot(Obj(attrs), cfg.notifyAttributes, logs, cfg.endpoints);
              && outcome == (if s.Ok? then Returned else Raised(s.error))
              && fieldsChanged == (if s.Ok? then Some(s.value) else old(fieldsChanged))
    {
      var root, eps := Obj(attrs), cfg.endpoints;
      var acc: map<string, seq<string>> := map[];
      var i := 0;
      while i < |eps|
        invariant 0 <= i <= |eps|
        invariant Snapshot(root, cfg.notifyAttributes, logs, eps[..i]) == Ok(acc)
      {
        var e := eps[i];
        var fs := FieldsToChange(root, cfg.notifyAttributes, MustSync(logs, e));
        assert eps[..i + 1][..i] == eps[..i];
        if fs.Err? {
          SnapshotStops(root, cfg.notifyAttributes, logs, eps, i + 1);
          return Raised(fs.error);
        }
        acc := acc[e := fs.value];
        i := i + 1;
      }
      assert eps[..i] == eps;
      fieldsChanged := Some(acc);
      outcome := Returned;
    }

    /** `create_task`: persist a task for the endpoint with its snapshot, the
        resolved identificators and the verb, then enqueue its id. If the
        identificators raise, nothing is persisted. */
    method CreateTask(endpoint: string, verb: string) returns (outcome: Outcome)
      requires Valid() && endpoint in cfg.endpoints
      modifies this`tasks, this`queue, this`nextTaskId
      ensures Valid()
      ensures var ids := GetIdentificators(Obj(attrs), cfg.identificators);
              && (ids.Err? ==> outcome == Raised(ids.error) && tasks == old(tasks) && queue == old(queue)
                                 && nextTaskId == old(nextTaskId))
              && (ids.Ok? ==>
                    && outcome == Returned
                    && tasks == old(tasks) + [Task(old(nextTaskId), endpoint, verb,
                                                   FieldsChanged(fieldsChanged, endpoint), ids.value)]
                    && queue == old(queue) + [old(nextTaskId)]
                    && nextTaskId == old(nextTaskId) + 1)
    {
      var ids := GetIdentificators(Obj(attrs), cfg.identificators);
      if ids.Err? {
        return Raised(ids.error);
      }
      var task := Task(nextTaskId, endpoint, verb, FieldsChanged(fieldsChanged, endpoint), ids.value);
      tasks := tasks + [task];
      queue := queue + [task.id];
      nextTaskId := nextTaskId + 1;
      outcome := Returned;
    }

    /** One turn of the `<verb>_via_api` loop: ask `no_need_to_synchronize?`
        and create the endpoint's task unless it says no. */
    method SyncEndpoint(verb: string, endpoint: string) returns (outcome: Outcome)
      requires Valid() && endpoint in cfg.endpoints
      modifies this`tasks, this`queue, this`nextTaskId
      ensures Valid()
      ensures var p := PlanFanout(cfg, View(), verb, [endpoint], old(nextTaskId));
              && tasks == old(tasks) + p.tasks
              && queue == old(queue) + TaskIds(p.tasks)
              && nextTaskId == old(nextTaskId) + |p.tasks|
              && outcome == OutcomeOf(p.raised)
    {
      assert PlanFanout(cfg, View(), verb, [], nextTaskId + 1) == Fanout([], None);
      assert PlanFanout(cfg, View(), verb, [], nextTaskId) == Fanout([], None);
      assert [endpoint][1..] == [];
      var nn := NoNeedToSynchronize(cfg, View(), verb, endpoint);
      if nn.Err? {
        return Raised(nn.error);
      }
      if nn.value {
        return Returned;
      }
      outcome := CreateTask(endpoint, verb);
    }

    /** One turn of the `<verb>_via_api` loop, on the plan it follows: the
        endpoint at `i` either raises, which ends the plan with the tasks
        created so far, or adds its tasks to them and leaves the rest. */
    method DispatchTurn(verb: string, i: nat, ghost rec: Record, ghost plan: Fanout, ghost created: seq<Task>,
                        ghost tasks0: seq<Task>, ghost nextTaskId0: nat)
      returns (outcome: Outcome, ghost created': seq<Task>)
      requires Valid() && View() == rec && i < |cfg.endpoints|
      requires tasks == tasks0 + created && nextTaskId == nextTaskId0 + |created|
      requires plan == Prepend(created, PlanFanout(cfg, rec, verb, cfg.endpoints[i..], nextTaskId))
      modifies this`tasks, this`queue, this`nextTaskId
      ensures Valid() && View() == rec
      ensures tasks == tasks0 + created' && nextTaskId == nextTaskId0 + |created'|
      ensures outcome.Returned? ==> plan == Prepend(created', PlanFanout(cfg, rec, verb, cfg.endpoints[i + 1..], nextTaskId))
      ensures outcome.Raised? ==> plan == Fanout(created', Some(outcome.error))
    {
      FanoutStep(cfg, rec, verb, cfg.endpoints, i, nextTaskId, created);
      ghost var id := nextTaskId;
      outcome := SyncEndpoint(verb, cfg.endpoints[i]);
      ghost var head := PlanFanout(cfg, rec, verb, [cfg.endpoints[i]], id);
      AppendAssoc(tasks0, created, head.tasks);
      created' := created + head.tasks;
    }

    /** `<verb>_via_api`: walk the endpoints in configured order and create a
        task for each one `no_need_to_synchronize?` does not rule out; an
        exception stops the walk, keeping the tasks already created. */
    method ViaApi(verb: string) returns (outcome: Outcome)
      requires Valid()
      modifies this`tasks, this`queue, this`nextTaskId
      ensures Valid()
      ensures var p := PlanFanout(cfg, View(), verb, cfg.endpoints, old(nextTaskId));
              && tasks == old(tasks) + p.tasks
              && queue == old(queue) + TaskIds(p.tasks)
              && nextTaskId == old(nextTaskId) + |p.tasks|
              && outcome == OutcomeOf(p.raised)
    {
      var eps := cfg.endpoints;
      ghost var rec := View();
      ghost var plan := PlanFanout(cfg, rec, verb, eps, nextTaskId);
      ghost var created: seq<Task> := [];
      var i := 0;
      outcome := Returned;
      while i < |eps| && outcome == Returned
        invariant 0 <= i <= |eps|
        invariant Valid() && View() == rec
        invariant tasks == old(tasks) + created
        invariant nextTaskId == old(nextTaskId) + |created|
        invariant outcome.Returned? ==> plan == Prepend(created, PlanFanout(cfg, rec, verb, eps[i..], nextTaskId))
        invariant outcome.Raised? ==> plan == Fanout(created, Some(outcome.error))
      {
        outcome, created := DispatchTurn(verb, i, rec, plan, created, old(tasks), old(nextTaskId));
        i := i + 1;
      }
      if outcome == Returned {
        assert PlanFanout(cfg, rec, verb, eps[i..], nextTaskId) == Fanout([], None);
      }
      TaskIdsAppend(old(tasks), created);
    }

    /** `method_missing`: route the hook name on its first `_` (see
        `RouteOf`) and run the snapshot or the fan-out it names. */
    method MethodMissing(name: string, active: bool) returns (outcome: Outcome)
      requires Valid()
      modifies this`fieldsChanged, this`tasks, this`queue, this`nextTaskId
      ensures Valid()
      ensures RouteOf(name, active) == Super ==> outcome == Raised(NoMethod(name))
      ensures RouteOf(name, active).Super? || RouteOf(name, active).Inactive? || RouteOf(name, active).Ignored? ==>
                fieldsChanged == old(fieldsChanged) && tasks == old(tasks) && queue == old(queue)
                && nextTaskId == old(nextTaskId)
      ensures RouteOf(name, active).Inactive? || RouteOf(name, active).Ignored? ==> outcome == Returned
      ensures RouteOf(name, active) == GatherChanges ==>
                var s := Snapshot(Obj(attrs), cfg.notifyAttributes, logs, cfg.endpoints);
                && outcome == (if s.Ok? then Returned else Raised(s.error))
                && fieldsChanged == (if s.Ok? then Some(s.value) else old(fieldsChanged))
                && tasks == old(tasks) && queue == old(queue) && nextTaskId == old(nextTaskId)
      ensures RouteOf(name, active).ViaApi? ==>
                var p := PlanFanout(cfg, View(), RouteOf(name, active).verb, cfg.endpoints, old(nextTaskId));
                && fieldsChanged == old(fieldsChanged)
                && tasks == old(tasks) + p.tasks
                && queue == old(queue) + TaskIds(p.tasks)
                && nextTaskId == old(nextTaskId) + |p.tasks|
                && outcome == OutcomeOf(p.raised)
    {
      match RouteOf(name, active)
      case Super =>
        outcome := Raised(NoMethod(name));
      case Inactive =>
        outcome := Returned;
      case Ignored =>
        outcome := Returned;
      case GatherChanges =>
        outcome := SetFieldsChanged();
      case ViaApi(verb) =>
        outcome := ViaApi(verb);
    }

    /** The before-write callback `assign_callbacks` registers for the event,
        run through `method_missing`: it takes the snapshot when the mixin is
        active and does nothing otherwise. */
    method BeforeWrite(e: Event, active: bool) returns (outcome: Outcome)
      requires Valid()
      modifies this`fieldsChanged, this`tasks, this`queue, this`nextTaskId
      ensures Valid()
      ensures tasks == old(tasks) && queue == old(queue) && nextTaskId == old(nextTaskId)
      ensures !active ==> outcome == Returned && fieldsChanged == old(fieldsChanged)
      ensures active ==>
                var s := Snapshot(Obj(attrs), cfg.notifyAttributes, logs, cfg.endpoints);
                && outcome == (if s.Ok? then Returned else Raised(s.error))
                && fieldsChanged == (if s.Ok? then Some(s.value) else old(fieldsChanged))
    {
      HookRouting(e, active);
      outcome := MethodMissing(BeforeHook(e), active);
    }

    /** The after-write callback for the event, run through `method_missing`:
        the `post` fan-out after a create or an update, the `delete` fan-out
        after a destroy, nothing when the mixin is inactive. */
    method AfterWrite(e: Event, active: bool) returns (outcome: Outcome)
      requires Valid()
      modifies this`fieldsChanged, this`tasks, this`queue, this`nextTaskId
      ensures Valid()
      ensures fieldsChanged == old(fieldsChanged)
      ensures !active ==>
                outcome == Returned && tasks == old(tasks) && queue == old(queue) && nextTaskId == old(nextTaskId)
      ensures active ==>
                var p := PlanFanout(cfg, View(), if e == Event.Destroy then "delete" else "post",
                                    cfg.endpoints, old(nextTaskId));
                && tasks == old(tasks) + p.tasks
                && queue == old(queue) + TaskIds(p.tasks)
                && nextTaskId == old(nextTaskId) + |p.tasks|
                && outcome == OutcomeOf(p.raised)
    {
      HookRouting(e, active);
      outcome := MethodMissing(AfterHook(e), active);
    }

    /** `save` on a record that includes the mixin: the before-write hook
        snapshots the diff against the unsaved state, the write replaces the
        attributes with `committed`, and the after-write hook fans out from
        that snapshot. A raising before-hook aborts the write. */
    method Save(newRecord: bool, active: bool, committed: map<string, Value>) returns (outcome: Outcome)
      requires Valid()
      modifies this`attrs, this`fieldsChanged, this`tasks, this`queue, this`nextTaskId
      ensures Valid()
      ensures !active ==>
                && outcome == Returned && attrs == committed && fieldsChanged == old(fieldsChanged)
                && tasks == old(tasks) && queue == old(queue) && nextTaskId == old(nextTaskId)
      ensures active ==>
                var s := Snapshot(Obj(old(attrs)), cfg.notifyAttributes, logs, cfg.endpoints);
                && (s.Err? ==>
                      && outcome == Raised(s.error) && attrs == old(attrs) && fieldsChanged == old(fieldsChanged)
                      && tasks == old(tasks) && queue == old(queue) && nextTaskId == old(nextTaskId))
                && (s.Ok? ==>
                      var p := PlanFanout(cfg, Record(committed, skip, Some(s.value), logs), "post",
                                          cfg.endpoints, old(nextTaskId));
                      && attrs == committed && fieldsChanged == Some(s.value)
                      && tasks == old(tasks) + p.tasks
                      && queue == old(queue) + TaskIds(p.tasks)
                      && nextTaskId == old(nextTaskId) + |p.tasks|
                      && outcome == OutcomeOf(p.raised))
    {
      var event := if newRecord then Create else Update;
      outcome := BeforeWrite(event, active);
      if outcome.Raised? {
        return;
      }
      attrs := committed;
      outcome := AfterWrite(event, active);
    }

    /** `destroy`: snapshot, then the log rows go with the record
        (`dependent: :destroy`), then the `delete` fan-out. */
    method Destroy(active: bool) returns (outcome: Outcome)
      requires Valid()
      modifies this`logs, this`fieldsChanged, this`tasks, this`queue, this`nextTaskId
      ensures Valid()
      ensures !active ==>
                && outcome == Returned && logs == {} && fieldsChanged == old(fieldsChanged)
                && tasks == old(tasks) && queue == old(queue) && nextTaskId == old(nextTaskId)
      ensures active ==>
                var s := Snapshot(Obj(attrs), cfg.notifyAttributes, old(logs), cfg.endpoints);
                && (s.Err? ==>
                      && outcome == Raised(s.error) && logs == old(logs) && fieldsChanged == old(fieldsChanged)
                      && tasks == old(tasks) && queue == old(queue) && nextTaskId == old(nextTaskId))
                && (s.Ok? ==>
                      var p := PlanFanout(cfg, Record(attrs, skip, Some(s.value), {}), "delete",
                                          cfg.endpoints, old(nextTaskId));
                      && logs == {} && fieldsChanged == Some(s.value)
                      && tasks == old(tasks) + p.tasks
                      && queue == old(queue) + TaskIds(p.tasks)
                      && nextTaskId == old(nextTaskId) + |p.tasks|
                      && outcome == OutcomeOf(p.raised))
    {
      outcome := BeforeWrite(Event.Destroy, active);
      if outcome.Raised? {
        return;
      }
      logs := {};
      outcome := AfterWrite(Event.Destroy, active);
    }

    /** `save_without_api_notify`: set the opt-out flag (for good) and save;
        no task is created, whatever changed. */
    method SaveWithoutApiNotify(newRecord: bool, active: bool, committed: map<string, Value>)
      returns (outcome: Outcome)
      requires Valid()
      modifies this`skip, this`attrs, this`fieldsChanged, this`tasks, this`queue, this`nextTaskId
      ensures Valid()
      ensures skip
      ensures tasks == old(tasks) && queue == old(queue) && nextTaskId == old(nextTaskId)
      ensures var s := Snapshot(Obj(old(attrs)), cfg.notifyAttributes, logs, cfg.endpoints);
              && (outcome.Raised? <==> active && s.Err?)
              && (outcome.Raised? ==> outcome == Raised(s.error) && attrs == old(attrs)
                                      && fieldsChanged == old(fieldsChanged))
              && (outcome == Returned ==>
                    attrs == committed && fieldsChanged == (if active then Some(s.value) else old(fieldsChanged)))
    {
      DisableApiNotify();
      outcome := Save(newRecord, active, committed);
      if active {
        var s := Snapshot(Obj(old(attrs)), cfg.notifyAttributes, logs, cfg.endpoints);
        if s.Ok? {
          PlanFanoutOptOut(cfg, Record(committed, skip, Some(s.value), logs), "post", cfg.endpoints, old(nextTaskId));
        }
      }
    }

    /** `update_attributes_without_api_notify`: set the opt-out flag, assign
        the attributes and save them as assigned. */
    method UpdateAttributesWithoutApiNotify(updates: map<string, Value>, active: bool)
      returns (outcome: Outcome)
      requires Valid()
      modifies this`skip, this`attrs, this`fieldsChanged, this`tasks, this`queue, this`nextTaskId
      ensures Valid()
      ensures skip
      ensures attrs == old(attrs) + updates
      ensures tasks == old(tasks) && queue == old(queue) && nextTaskId == old(nextTaskId)
      ensures var s := Snapshot(Obj(old(attrs) + updates), cfg.notifyAttributes, logs, cfg.endpoints);
              && (outcome.Raised? <==> active && s.Err?)
              && (outcome.Raised? ==> outcome == Raised(s.error) && fieldsChanged == old(fieldsChanged))
              && (outcome == Returned ==> fieldsChanged == (if active then Some(s.value) else old(fieldsChanged)))
    {
      DisableApiNotify();
      attrs := attrs + updates;
      outcome := SaveWithoutApiNotify(false, active, attrs);
    }
  }
}
