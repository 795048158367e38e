# api_notify change-detection and dispatch, in Dafny

This project models the `ApiNotify::ActiveRecord::Main` mixin
(`lib/api_notify/active_record/main.rb`). The mixin is the part of api_notify that
decides, on every create, update and destroy of a record, which fields each
configured endpoint must hear about, whether that endpoint needs a sync at all,
and, if it does, persists a sync task and queues its id for the worker.

The model is split the way the mixin is:

- `Values` — the object graph the mixin reads: `nil`, booleans, integers,
  strings and records (a record answers `send` for attribute readers and for the
  dirty-tracking queries such as `vin_changed?`), Ruby's `present?` and
  truthiness, and `send` raising `NoMethodError`.
- `Seqs` — order facts (subsequence, no repetitions) used to state what the
  selections keep.
- `Paths` — `get_value` and `field_changed?`, the folds over `split('.')`.
  Ruby's `split` is modelled exactly (trailing empty fields dropped), so a path
  can be any number of segments deep.
- `Naming` — the strings the mixin builds and parses: `METHODS`,
  `split(/_/, 2)` and the routing of `method_missing`, the callback names
  `assign_callbacks` registers, the default request callbacks, the option
  readers `define_options` creates and the configuration `api_notify` fixes.
- `Changes` — the pure decisions: `must_sync?`, `fields_to_change`, the
  `@fields_changed` snapshot and `fields_changed`, `get_identificators`,
  `fill_fields_with_values`, `no_need_to_synchronize?`, and the fan-out of one
  `*_via_api` hook as a function of the record (`PlanFanout`).
- `Notify` — the record as a class, `Notify.Notifiable`, whose fields the hooks
  change in place: the opt-out flag, the snapshot, the endpoints that have a sync
  log row, the persisted tasks, the worker queue and the next task id. Its
  methods are the hooks and helpers of the mixin. Each method's `ensures` ties
  the new state to the functions of `Changes`, and `Valid()` (every task's id
  enqueued once, in order, ids increasing; a snapshot covers exactly the
  configured endpoints) is preserved by all of them.

Raised exceptions are values, not preconditions. In the model a `send` of a
name the receiver's attribute map does not hold raises `NoMethodError`
(`Error.NoMethod`; see `Values.Send` under "Left out" for where Ruby differs),
and so does `nil.empty?` when
`no_need_to_synchronize?` asks about an endpoint the snapshot lacks. Functions
return `Result`, and methods return `Outcome.Raised`. A raising hook stops where
Ruby would stop: tasks created before the raise stay, and the snapshot is not
replaced.

Three points of the code the model keeps as written:

- An update dispatches with `post`, like a create (`after_update :post_via_api`,
  main.rb line 44), not with `put`.
- A dotted field path may have any number of segments (the fold over
  `split('.')`).
- On destroy, the snapshot is taken before the sync log rows are destroyed.
  `assign_callbacks` runs before `assign_associations`, so the snapshot sees the
  old logs, and the `delete` fan-out that follows sees none.

## Model

| member | source | states |
|---|---|---|
| Paths.SplitAllNoDots | lib/api_notify/active_record/main.rb:144 | no segment of a split contains the separator |
| Paths.JoinSplitAll | lib/api_notify/active_record/main.rb:144 | joining the split segments with `.` gives the path text back |
| Paths.SplitAllJoin | lib/api_notify/active_record/main.rb:144 | splitting the join of separator-free segments gives the segments back |
| Paths.SplitAllAppend | lib/api_notify/active_record/main.rb:148 | appending text without a `.` to a path extends only its last segment |
| Paths.ChangedPathShape | lib/api_notify/active_record/main.rb:148 | the dirty query's segments are the path's segments with `_changed?` appended to the last one only |
| Paths.ChangedPathOfSegments | lib/api_notify/active_record/main.rb:144-148 | for a non-empty path not ending in `.`, `field_changed?` walks the same segments as `get_value`, with `_changed?` on the last |
| Paths.WalkAbsent | lib/api_notify/active_record/main.rb:144-153 | once the fold carries a non-present stand-in it keeps it to the end |
| Paths.WalkSnoc | lib/api_notify/active_record/main.rb:144-153 | the fold over `path + [last]` is the fold over `path`, then one `send` if that object is present, else the stand-in |
| Paths.WalkMissingLink | lib/api_notify/active_record/main.rb:144-153 | a non-present object after any proper prefix makes the whole path resolve to the stand-in |
| Paths.GetValueSpec | lib/api_notify/active_record/main.rb:143-145 | `get_value` is the last segment's `send` on the object the other segments reach, or `""` if that object is not present |
| Paths.GetValueMissingLink | lib/api_notify/active_record/main.rb:143-145 | `get_value` never raises on a missing link: a non-present intermediate object gives `""` |
| Paths.FieldChangedSpec | lib/api_notify/active_record/main.rb:147-155 | `field_changed?` sends `<last segment>_changed?` to the object the other segments reach, and is `false` when an object on the way is not present |
| Paths.AbsentAssociation | lib/api_notify/active_record/main.rb:143-155 | `assoc.attr` through an absent association reads `""` and reports no change |
| Naming.IndexOf | lib/api_notify/active_record/main.rb:193 | the position found is the first `_` of the name, or its length when there is none |
| Naming.SplitFirstInverse | lib/api_notify/active_record/main.rb:193 | `split(/_/, 2)` loses nothing: at most two parts, which rejoined with `_` give the name, the first without `_`; empty only for the empty name |
| Naming.SplitFirstOfJoin | lib/api_notify/active_record/main.rb:193 | `"#{verb}_#{suffix}".split(/_/, 2)` is `[verb, suffix]` |
| Naming.IndexOfPrefix | lib/api_notify/active_record/main.rb:193 | the first `_` after a prefix without `_` is right after that prefix |
| Naming.RouteOfSpec | lib/api_notify/active_record/main.rb:192-207 | `<verb>_<suffix>` does nothing while inactive; otherwise `via_api` fans out with the verb, `gather_changes` snapshots, any other suffix returns nil |
| Naming.RouteOfNonVerb | lib/api_notify/active_record/main.rb:194-206 | a name not starting with `post`, `get`, `delete` or `put` (bare or followed by `_`) goes to `super` |
| Naming.HookRouting | lib/api_notify/active_record/main.rb:43-50 | every before-write hook snapshots; create and update fan out with `post`, destroy with `delete`; nothing while inactive |
| Naming.CallbackNameInjective | lib/api_notify/active_record/main.rb:58-66 | one endpoint's default callbacks are pairwise different: the name determines the verb and the outcome |
| Naming.OptionNameInjective | lib/api_notify/active_record/main.rb:71 | for a fixed endpoint (or none), option names determine their keys |
| Naming.DefineOptionsSpec | lib/api_notify/active_record/main.rb:69-76 | for distinct keys, every option not shadowed by an instance method is readable under its name with its value, and every other name is untouched |
| Naming.DefineEndpointsMethods | lib/api_notify/active_record/main.rb:33-36 | the endpoint loop adds exactly the default callbacks of every endpoint to the instance methods |
| Naming.DefineEndpointsOption | lib/api_notify/active_record/main.rb:33-36 | after the loop, an endpoint's option is readable under `<endpoint>_<key>` with its value, unless a method of that name exists by then (an instance method or a default callback of that or an earlier endpoint) or a later endpoint defines an option under the same name |
| Naming.DefineEndpointsFrame | lib/api_notify/active_record/main.rb:33-36 | a name no endpoint option is defined under keeps what the option table had before the loop |
| Naming.SkipOptionNotBuiltin | lib/api_notify/active_record/main.rb:16-54 | neither the `skip_api_notify` accessor, the association methods nor the argument readers are named `<endpoint>_skip_synchronize` |
| Naming.SkipOptionNotCallback | lib/api_notify/active_record/main.rb:58-66 | no endpoint's default callback is named `<endpoint>_skip_synchronize`, for any endpoint |
| Naming.SkipOptionNotPredefined | lib/api_notify/active_record/main.rb:16-66 | nothing the mixin defines by itself shadows an endpoint's skip option |
| Naming.ApiNotifySkipOption | lib/api_notify/active_record/main.rb:15-37 | for any endpoint of the configuration, its `skip_synchronize:` option is what `no_need_to_synchronize?` later finds under `<endpoint>_skip_synchronize`, unless the model class already has that method or a later endpoint option or trailing option is defined under the same name |
| Changes.FieldsToChangeRaises | lib/api_notify/active_record/main.rb:125-133 | `fields_to_change` raises exactly when some watched field's dirty query raises, even under `must_sync` |
| Changes.FieldsToChangeSelection | lib/api_notify/active_record/main.rb:125-133 | the result is an order-preserving subsequence of the watched fields holding every field whose dirty query is truthy or that `must_sync` forces, and no other |
| Changes.FieldsToChangeMustSync | lib/api_notify/active_record/main.rb:121-133 | with no log row for the endpoint, every watched field is returned, in order, whatever changed |
| Changes.FieldsToChangeNothingChanged | lib/api_notify/active_record/main.rb:121-133 | with a log row and every dirty query falsy, nothing is selected |
| Changes.Snapshot | lib/api_notify/active_record/main.rb:157-159 | a snapshot taken has exactly one key per configured endpoint |
| Changes.SnapshotSpec | lib/api_notify/active_record/main.rb:157-159 | the snapshot succeeds exactly when there is no endpoint or every dirty query answers, and maps each endpoint to its `fields_to_change` |
| Changes.SnapshotStops | lib/api_notify/active_record/main.rb:158 | once an endpoint's `fields_to_change` raises, the whole snapshot raises that error |
| Changes.FieldsChangedSpec | lib/api_notify/active_record/main.rb:157-163 | before any snapshot `fields_changed` is `[]`; after one, a configured endpoint reads its `fields_to_change` and any other endpoint `nil` |
| Changes.ResolveIntoRaises | lib/api_notify/active_record/main.rb:135-141 | a hash fold raises exactly when some path's `get_value` raises |
| Changes.ResolveIntoSpec | lib/api_notify/active_record/main.rb:135-141 | a hash fold has exactly the given keys, each holding `get_value` of the last path given for it |
| Changes.ResolveIntoKeys | lib/api_notify/active_record/main.rb:135-141 | a hash fold's keys are the given keys |
| Changes.ResolveIntoValues | lib/api_notify/active_record/main.rb:135-141 | a later pair with the same key overwrites an earlier one |
| Changes.GetIdentificatorsSpec | lib/api_notify/active_record/main.rb:139-141 | the identificators hash has exactly the configured keys, each with `get_value` of its path |
| Changes.FillFieldsWithValuesSpec | lib/api_notify/active_record/main.rb:135-137 | the payload maps every given field, and nothing else, to its `get_value` |
| Changes.NoNeedToSynchronizeSpec | lib/api_notify/active_record/main.rb:178-190 | skipped when the opt-out flag is set, or when the skip option's method is truthy; `delete` is never skipped for an empty diff; any other verb is skipped exactly when the snapshot entry is empty; a sync is due exactly when none of these holds |
| Changes.PlanFanoutTasks | lib/api_notify/active_record/main.rb:166-200 | every task is for a due endpoint, in configured order, with consecutive ids, the hook's verb, that endpoint's snapshot and the resolved identificators |
| Changes.PlanFanoutComplete | lib/api_notify/active_record/main.rb:198-200 | the fan-out raises exactly when some endpoint's decision or identificators raise; otherwise every due endpoint has its task |
| Changes.PlanFanoutOncePerEndpoint | lib/api_notify/active_record/main.rb:198-200 | with endpoints configured once, no endpoint gets two tasks from one hook |
| Changes.PlanFanoutOptOut | lib/api_notify/active_record/main.rb:178-200 | with the opt-out flag set, no task is created and nothing raises |
| Changes.PlanFanoutCons | lib/api_notify/active_record/main.rb:198-200 | the fan-out is the first endpoint's, then, unless that raised, the rest's with the following ids |
| Changes.PlanFanoutDeleteAlwaysSyncs | lib/api_notify/active_record/main.rb:178-200 | when the opt-out flag is clear, every skip option answers and the identificators resolve, a `delete` raises nothing and creates one task for each endpoint whose skip option is falsy and none for the others, in configured order, whatever the diff |
| Changes.PlanFanoutNoOp | lib/api_notify/active_record/main.rb:178-200 | a non-`delete` hook with an empty diff for every endpoint creates no task |
| Notify.FanoutStep | lib/api_notify/active_record/main.rb:198-200 | one turn of the endpoint loop either ends the plan at a raise or moves one endpoint's tasks into the created prefix |
| Notify.Notifiable.constructor | lib/api_notify/active_record/main.rb:16 | a fresh record has the opt-out flag clear, no snapshot, no tasks and an empty queue |
| Notify.Notifiable.DisableApiNotify | lib/api_notify/active_record/main.rb:100-102 | sets the opt-out flag and changes nothing else |
| Notify.Notifiable.EnableApiNotify | lib/api_notify/active_record/main.rb:104-106 | clears the opt-out flag and changes nothing else |
| Notify.Notifiable.SetFieldsChanged | lib/api_notify/active_record/main.rb:157-159 | the snapshot becomes `Snapshot` of the current record; if that raises, the old snapshot stays and the error is returned |
| Notify.Notifiable.CreateTask | lib/api_notify/active_record/main.rb:166-176 | appends one task (next id, endpoint, verb, `fields_changed`, identificators) and enqueues its id; if the identificators raise, nothing is persisted |
| Notify.Notifiable.SyncEndpoint | lib/api_notify/active_record/main.rb:199 | one endpoint: asks `no_need_to_synchronize?` and creates the task if due, exactly as the fan-out over that endpoint alone |
| Notify.Notifiable.DispatchTurn | lib/api_notify/active_record/main.rb:198-200 | one loop turn keeps the loop's plan invariant: tasks so far plus the remaining endpoints' fan-out is the whole fan-out |
| Notify.Notifiable.ViaApi | lib/api_notify/active_record/main.rb:197-200 | appends exactly the tasks of `PlanFanout` over the configured endpoints and enqueues their ids in order; returns the error that stopped it, if any |
| Notify.Notifiable.MethodMissing | lib/api_notify/active_record/main.rb:192-207 | routes on the name: NoMethodError for `super`; no change when inactive or for another suffix; the snapshot for `gather_changes`; the fan-out for `via_api` |
| Notify.Notifiable.BeforeWrite | lib/api_notify/active_record/main.rb:47-49 | the before-write hook takes the snapshot when active and does nothing otherwise |
| Notify.Notifiable.AfterWrite | lib/api_notify/active_record/main.rb:44-46 | the after-write hook fans out with `post` after create or update, with `delete` after destroy, and does nothing when inactive |
| Notify.Notifiable.Save | lib/api_notify/active_record/main.rb:44-48 | the snapshot is taken from the unsaved state; if it raises, the write does not happen; otherwise the write, then the `post` fan-out from that snapshot |
| Notify.Notifiable.Destroy | lib/api_notify/active_record/main.rb:46-53 | snapshot with the old log rows, then the log rows go, then the `delete` fan-out |
| Notify.Notifiable.SaveWithoutApiNotify | lib/api_notify/active_record/main.rb:108-111 | the opt-out flag ends up set and no task is created or enqueued, whatever changed; when active the before-write snapshot is still taken from the unsaved state, and the save raises exactly when that snapshot raises, leaving the attributes and the old snapshot |
| Notify.Notifiable.UpdateAttributesWithoutApiNotify | lib/api_notify/active_record/main.rb:113-116 | assigns the attributes, sets the opt-out flag for good and creates no task; when active the snapshot is taken from the assigned attributes, and the update raises exactly when that snapshot raises |

## Left out

- The synchronizer worker (`lib/api_notify/workers/synchronizer_worker.rb`), its retry bound and exhaustion hook, and `Task#synchronize`: they are Sidekiq configuration and code that is not part of this model.
- `Task.create`, `api_notify_logs.find_by` and `SynchronizerWorker.perform_async` are ActiveRecord and Sidekiq calls. They are modelled as the in-memory task sequence, the set of endpoints with a log row, the queue of ids and an id counter.
- `define_route_name` and `define_synchronizer`: they rely on ActiveSupport `pluralize` and on `Synchronizer`, which are not part of this model, and nothing in the engine reads them.
- The ActiveRecord callback registration, associations and the `define_method`/`define_singleton_method` metaprogramming. The configuration is plain data (`Config`), the option readers are a name-to-value table, and the hooks are explicit method calls.
- `@must_sync` is written by `fields_to_change` and never read again, so it is not kept as state.
- Notify.Notifiable.Save: does not model validation failures, the arguments passed to `save`, or the transaction rollback when an after-write hook raises. The model keeps the write and the tasks created before the raise, although the database would roll them back while the ids already enqueued stay queued.
- Notify.Notifiable.Destroy: does not model the transaction rollback either, for the same reason.
- Values.Present: only ASCII whitespace counts as blank. Ruby's `blank?` also treats Unicode spaces as blank.
- Values: floats, symbols, arrays and hashes are not values of the model.
- Values.Send: only records answer `send`. Every `send` to a string, an integer or a boolean raises NoMethodError in the model, while Ruby answers its own methods there (`get_value("make.length")` gives the string's length, `created_at.year` a year). The set of methods of Ruby's core classes is outside this model.
- Values.Send: a name the notifiable record itself does not define goes, in Ruby, to the mixin's own `method_missing` (main.rb lines 192-207). There a name whose text before the first `_` is `post`, `get`, `delete` or `put` returns nil (while inactive, or for any suffix other than `via_api` and `gather_changes`) or runs the snapshot or the fan-out. The model does not route these sends: it raises NoMethodError unless the attribute map holds the name. So a watched field `post_title` on a record without `post_title_changed?` makes the model's snapshot raise, where Ruby reads nil and carries on. The same holds for `get_value` paths, identificator paths and the skip option's `send` (main.rb line 182). Routing them would make every read depend on the activity flag and let a read run a hook.
- Notify.Notifiable.MethodMissing: `super` is taken to raise NoMethodError for the name. ActiveRecord's own `method_missing`, which `super` reaches, may still answer (for example with lazily generated attribute methods); that behaviour is not part of this model.
- `self.class.methods.include?` is modelled as membership in the option table. Other class methods that happen to be named `<endpoint>_skip_synchronize` are not modelled.
- `defined? self.skip_api_notify` always holds once `api_notify` has run, so the opt-out helpers set the flag unconditionally.
