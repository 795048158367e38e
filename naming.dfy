/** The names the mixin builds and parses: the verbs, the lifecycle hooks and
    how `method_missing` routes them, the per-endpoint callback names, and the
    class-level option table that `api_notify` defines. */
module Naming {
  import opened Values

  /** `METHODS`, in the source's order. */
  const Verbs: seq<string> := ["post", "get", "delete", "put"]

  // ---------------------------------------------------------------------
  // m.to_s.split(/_/, 2)
  // ---------------------------------------------------------------------

  /** Position of the first `c` in `s`, or `|s|` when there is none. */
  function IndexOf(s: string, c: char): (i: nat)
    ensures i <= |s|
    ensures i < |s| ==> s[i] == c
    ensures forall j :: 0 <= j < i ==> s[j] != c
    decreases |s|
  {
    if s == [] then 0
    else if s[0] == c then 0
    else 1 + IndexOf(s[1..], c)
  }

  /** `s.split(/_/, 2)`: nothing for the empty name, else the text before the
      first `_` and everything after it (possibly empty), or the whole name
      when it has no `_`. */
  function SplitFirst(s: string): seq<string> {
    if s == [] then []
    else
      var i := IndexOf(s, '_');
      if i == |s| then [s] else [s[..i], s[i + 1..]]
  }

  /** The split loses nothing: its parts joined with `_` give the name back,
      and the first part holds no `_`. */
  lemma {:induction false} SplitFirstInverse(s: string)
    ensures var r := SplitFirst(s);
            && (s == [] <==> r == [])
            && (|r| == 1 ==> r[0] == s && '_' !in s)
            && (|r| == 2 ==> r[0] + "_" + r[1] == s && '_' !in r[0])
            && |r| <= 2
  {
    if s != [] {
      var i := IndexOf(s, '_');
      if i == |s| {
        assert '_' !in s by {
          forall j | 0 <= j < |s| ensures s[j] != '_' { }
        }
      } else {
        assert s[..i] + "_" + s[i + 1..] == s;
        assert '_' !in s[..i] by {
          forall j | 0 <= j < i ensures s[..i][j] != '_' { }
        }
      }
    }
  }

  /** A verb-like prefix without `_`, then `_`, then anything: the split
      returns exactly the two pieces. */
  lemma {:induction false} SplitFirstOfJoin(head: string, tail: string)
    requires head != [] && '_' !in head
    ensures SplitFirst(head + "_" + tail) == [head, tail]
  {
    var s := head + "_" + tail;
    assert s == head + ("_" + tail);
    IndexOfPrefix(head, "_" + tail, '_');
    assert IndexOf(s, '_') == |head| < |s|;
    assert s[..|head|] == head;
    assert s[|head| + 1..] == tail;
  }

  /** Searching past a prefix that lacks `c` lands right after it. */
  lemma {:induction false} IndexOfPrefix(head: string, rest: string, c: char)
    requires c !in head && rest != [] && rest[0] == c
    ensures IndexOf(head + rest, c) == |head|
    decreases |head|
  {
    if head != [] {
      assert (head + rest)[1..] == head[1..] + rest;
      IndexOfPrefix(head[1..], rest, c);
    }
  }

  // ---------------------------------------------------------------------
  // method_missing
  // ---------------------------------------------------------------------

  /** Where `method_missing` sends a call. */
  datatype Route =
    | Super                  // not a verb prefix: falls through to `super`
    | Inactive               // verb prefix, but the global `active` flag is off
    | ViaApi(verb: string)   // `<verb>_via_api`: fan out tasks
    | GatherChanges          // `<verb>_gather_changes`: take the snapshot
    | Ignored                // any other suffix: returns nil

  function RouteOf(name: string, active: bool): Route {
    var vars := SplitFirst(name);
    if vars != [] && vars[0] in Verbs then
      if !active then Inactive
      else if vars[|vars| - 1] == "via_api" then ViaApi(vars[0])
      else if vars[|vars| - 1] == "gather_changes" then GatherChanges
      else Ignored
    else Super
  }

  /** `<verb>_<suffix>` is routed on the suffix alone (and not at all while
      inactive); a name whose text before the first `_` is not a verb goes to
      `super`. */
  lemma {:induction false} RouteOfSpec(verb: string, suffix: string, active: bool)
    requires verb in Verbs
    ensures RouteOf(verb + "_" + suffix, active) ==
            if !active then Inactive
            else if suffix == "via_api" then ViaApi(verb)
            else if suffix == "gather_changes" then GatherChanges
            else Ignored
  {
    assert '_' !in verb;
    SplitFirstOfJoin(verb, suffix);
  }

  /** The name starts with a verb followed by `_`, or is a bare verb. */
  ghost predicate HasVerbPrefix(name: string) {
    exists v :: v in Verbs && (name == v || (|v| < |name| && name[..|v| + 1] == v + "_"))
  }

  /** Only names that start with a verb are handled; everything else goes to
      `super`. */
  lemma {:induction false} RouteOfNonVerb(name: string, active: bool)
    ensures RouteOf(name, active) != Super ==> HasVerbPrefix(name)
  {
    SplitFirstInverse(name);
    var vars := SplitFirst(name);
    if vars != [] && vars[0] in Verbs {
      var v := vars[0];
      if |vars| == 2 {
        assert name == (v + "_") + vars[1];
        assert name[..|v| + 1] == v + "_";
      }
    }
  }

  // ---------------------------------------------------------------------
  // assign_callbacks
  // ---------------------------------------------------------------------

  datatype Event = Create | Update | Destroy

  /** The before-write callback each lifecycle event is given. */
  function BeforeHook(e: Event): string {
    match e
    case Create => "post_gather_changes"
    case Update => "post_gather_changes"
    case Destroy => "delete_gather_changes"
  }

  /** The after-write callback each lifecycle event is given. */
  function AfterHook(e: Event): string {
    match e
    case Create => "post_via_api"
    case Update => "post_via_api"
    case Destroy => "delete_via_api"
  }

  /** Create and update both dispatch `post`, destroy dispatches `delete`,
      and every before-write hook takes the snapshot. */
  lemma {:induction false} HookRouting(e: Event, active: bool)
    ensures RouteOf(BeforeHook(e), active) == if active then GatherChanges else Inactive
    ensures RouteOf(AfterHook(e), active) ==
            if !active then Inactive else ViaApi(if e == Destroy then "delete" else "post")
  {
    if e == Destroy {
      assert "delete_gather_changes" == "delete" + "_" + "gather_changes";
      assert "delete_via_api" == "delete" + "_" + "via_api";
      RouteOfSpec("delete", "gather_changes", active);
      RouteOfSpec("delete", "via_api", active);
    } else {
      assert "post_gather_changes" == "post" + "_" + "gather_changes";
      assert "post_via_api" == "post" + "_" + "via_api";
      RouteOfSpec("post", "gather_changes", active);
      RouteOfSpec("post", "via_api", active);
    }
  }

  // ---------------------------------------------------------------------
  // define_default_request_callbacks
  // ---------------------------------------------------------------------

  const Outcomes: seq<string> := ["success", "failed"]

  /** `"#{endpoint}_api_notify_#{method}_#{outcome}"`. */
  function CallbackName(endpoint: string, verb: string, outcome: string): string {
    endpoint + "_api_notify_" + verb + "_" + outcome
  }

  /** The no-op callbacks defined for one endpoint. */
  function DefaultCallbacks(endpoint: string): set<string> {
    set v, o | v in Verbs && o in Outcomes :: CallbackName(endpoint, v, o)
  }

  /** One endpoint's callback names are pairwise different: each (verb,
      outcome) has its own hook. */
  lemma {:induction false} CallbackNameInjective(endpoint: string, v1: string, o1: string, v2: string, o2: string)
    requires v1 in Verbs && v2 in Verbs
    requires CallbackName(endpoint, v1, o1) == CallbackName(endpoint, v2, o2)
    ensures v1 == v2 && o1 == o2
  {
    var pre := endpoint + "_api_notify_";
    assert CallbackName(endpoint, v1, o1) == pre + (v1 + "_" + o1);
    assert CallbackName(endpoint, v2, o2) == pre + (v2 + "_" + o2);
    PrefixCancel(pre, v1 + "_" + o1, v2 + "_" + o2);
    assert '_' !in v1 && '_' !in v2;
    SplitFirstOfJoin(v1, o1);
    SplitFirstOfJoin(v2, o2);
  }

  lemma {:induction false} PrefixCancel(p: string, a: string, b: string)
    requires p + a == p + b
    ensures a == b
  {
    assert a == (p + a)[|p|..];
    assert b == (p + b)[|p|..];
  }

  // ---------------------------------------------------------------------
  // define_options and api_notify
  // ---------------------------------------------------------------------

  /** `method_name = endpoint ? "#{endpoint}_#{key}" : key`. */
  function OptionName(endpoint: Option<string>, key: string): string {
    match endpoint
    case None => key
    case Some(e) => e + "_" + key
  }

  /** `define_options`: each option becomes a class-level reader returning its
      value, unless an instance method of that name is already defined. */
  function DefineOptions(table: map<string, string>, options: seq<(string, string)>,
                         endpoint: Option<string>, instanceMethods: set<string>): map<string, string>
    decreases |options|
  {
    if options == [] then table
    else
      var name := OptionName(endpoint, options[0].0);
      var table' := if name in instanceMethods then table else table[name := options[0].1];
      DefineOptions(table', options[1..], endpoint, instanceMethods)
  }

  /** Option names are told apart by their keys once the endpoint is fixed. */
  lemma {:induction false} OptionNameInjective(endpoint: Option<string>, k1: string, k2: string)
    requires OptionName(endpoint, k1) == OptionName(endpoint, k2)
    ensures k1 == k2
  {
    if endpoint.Some? {
      PrefixCancel(endpoint.value + "_", k1, k2);
    }
  }

  ghost predicate DistinctKeys(options: seq<(string, string)>) {
    forall i, j :: 0 <= i < j < |options| ==> options[i].0 != options[j].0
  }

  /** What `define_options` leaves behind, for options with distinct keys:
      each option not shadowed by an instance method is readable under its
      name with its value; every other name keeps what it had. */
  lemma {:induction false} DefineOptionsSpec(table: map<string, string>, options: seq<(string, string)>,
                                             endpoint: Option<string>, instanceMethods: set<string>)
    requires DistinctKeys(options)
    ensures var r := DefineOptions(table, options, endpoint, instanceMethods);
            && (forall i :: 0 <= i < |options| && OptionName(endpoint, options[i].0) !in instanceMethods ==>
                  OptionName(endpoint, options[i].0) in r && r[OptionName(endpoint, options[i].0)] == options[i].1)
            && (forall n :: (forall i :: 0 <= i < |options| ==> n != OptionName(endpoint, options[i].0)) ==>
                  (n in r <==> n in table) && (n in table ==> r[n] == table[n]))
            && (forall n :: n in instanceMethods ==> (n in r <==> n in table) && (n in table ==> r[n] == table[n]))
    decreases |options|
  {
    if options != [] {
      var name := OptionName(endpoint, options[0].0);
      var table' := if name in instanceMethods then table else table[name := options[0].1];
      var rest := options[1..];
      assert DistinctKeys(rest) by {
        forall i, j | 0 <= i < j < |rest| ensures rest[i].0 != rest[j].0 {
          assert rest[i] == options[i + 1] && rest[j] == options[j + 1];
        }
      }
      DefineOptionsSpec(table', rest, endpoint, instanceMethods);
      var r := DefineOptions(table, options, endpoint, instanceMethods);
      assert r == DefineOptions(table', rest, endpoint, instanceMethods);
      forall i | 0 <= i < |rest|
        ensures name != OptionName(endpoint, rest[i].0)
      {
        assert rest[i] == options[i + 1];
        if name == OptionName(endpoint, options[i + 1].0) {
          OptionNameInjective(endpoint, options[0].0, options[i + 1].0);
        }
      }
      forall i | 0 <= i < |options| && OptionName(endpoint, options[i].0) !in instanceMethods
        ensures OptionName(endpoint, options[i].0) in r && r[OptionName(endpoint, options[i].0)] == options[i].1
      {
        if i > 0 {
          assert rest[i - 1] == options[i];
        } else {
          assert r == DefineOptions(table', rest, endpoint, instanceMethods);
          assert name in table' && table'[name] == options[0].1;
        }
      }
      forall n | (forall i :: 0 <= i < |options| ==> n != OptionName(endpoint, options[i].0))
        ensures (n in r <==> n in table) && (n in table ==> r[n] == table[n])
      {
        assert n != OptionName(endpoint, options[0].0);
        forall i | 0 <= i < |rest| ensures n != OptionName(endpoint, rest[i].0) {
          assert rest[i] == options[i + 1];
        }
      }
    }
  }

  /** The configuration `api_notify` fixes for a model class. */
  datatype Config = Config(
    notifyAttributes: seq<string>,           // fields to watch, dotted paths allowed
    identificators: seq<(string, string)>,   // key => field path, in hash order
    endpoints: seq<string>,                  // endpoint names, in hash order
    classOptions: map<string, string>)       // class-level option readers => their values

  /** Instance methods `api_notify` defines before any option: the
      `skip_api_notify` accessor, the public readers and writers the two
      `has_many` associations add, and the readers for its three arguments. */
  const BuiltinMethods: set<string> :=
    {"skip_api_notify", "skip_api_notify=",
     "api_notify_logs", "api_notify_logs=", "api_notify_log_ids", "api_notify_log_ids=",
     "api_notify_tasks", "api_notify_tasks=", "api_notify_task_ids", "api_notify_task_ids=",
     "notify_attributes", "identificators", "endpoints"}

  /** `api_notify(fields, identificators, endpoints, options)`: each endpoint
      first gets its default callbacks, then its own options under prefixed
      names; the trailing options come last, unprefixed. */
  function ApiNotify(fields: seq<string>, identificators: seq<(string, string)>,
                     endpoints: seq<(string, seq<(string, string)>)>, options: seq<(string, string)>,
                     instanceMethods: set<string>): Config
  {
    var (table, methods) := DefineEndpoints(map[], endpoints, instanceMethods + BuiltinMethods);
    Config(fields, identificators, seq(|endpoints|, i requires 0 <= i < |endpoints| => endpoints[i].0),
           DefineOptions(table, options, None, methods))
  }

  /** The `endpoints.each_pair` loop of `api_notify`. */
  function DefineEndpoints(table: map<string, string>, endpoints: seq<(string, seq<(string, string)>)>,
                           methods: set<string>): (r: (map<string, string>, set<string>))
    ensures methods <= r.1
    decreases |endpoints|
  {
    if endpoints == [] then (table, methods)
    else
      var (e, params) := endpoints[0];
      var methods' := methods + DefaultCallbacks(e);
      DefineEndpoints(DefineOptions(table, params, Some(e), methods'), endpoints[1..], methods')
  }

  /** The default callbacks of every endpoint in the list. */
  ghost function CallbacksOf(endpoints: seq<(string, seq<(string, string)>)>): set<string> {
    set i, n | 0 <= i < |endpoints| && n in DefaultCallbacks(endpoints[i].0) :: n
  }

  lemma {:induction false} CallbacksOfCons(endpoints: seq<(string, seq<(string, string)>)>)
    requires endpoints != []
    ensures CallbacksOf(endpoints) == DefaultCallbacks(endpoints[0].0) + CallbacksOf(endpoints[1..])
  {
    var rest := endpoints[1..];
    forall n | n in CallbacksOf(endpoints) ensures n in DefaultCallbacks(endpoints[0].0) + CallbacksOf(rest) {
      var i :| 0 <= i < |endpoints| && n in DefaultCallbacks(endpoints[i].0);
      if i > 0 {
        assert rest[i - 1] == endpoints[i];
      }
    }
    forall n | n in CallbacksOf(rest) ensures n in CallbacksOf(endpoints) {
      var i :| 0 <= i < |rest| && n in DefaultCallbacks(rest[i].0);
      assert rest[i] == endpoints[i + 1];
    }
  }

  /** The endpoint loop defines exactly the default callbacks of every
      endpoint as new instance methods. */
  lemma {:induction false} DefineEndpointsMethods(table: map<string, string>,
                                                  endpoints: seq<(string, seq<(string, string)>)>,
                                                  methods: set<string>)
    ensures DefineEndpoints(table, endpoints, methods).1 == methods + CallbacksOf(endpoints)
    decreases |endpoints|
  {
    if endpoints != [] {
      var (e, params) := endpoints[0];
      var methods' := methods + DefaultCallbacks(e);
      DefineEndpointsMethods(DefineOptions(table, params, Some(e), methods'), endpoints[1..], methods');
      CallbacksOfCons(endpoints);
    }
  }

  /** Every endpoint's options have distinct keys (they come from a hash). */
  ghost predicate DistinctParams(endpoints: seq<(string, seq<(string, string)>)>) {
    forall j :: 0 <= j < |endpoints| ==> DistinctKeys(endpoints[j].1)
  }

  /** The option name the `i`th option of the `j`th endpoint is defined under. */
  function EndpointOptionName(endpoints: seq<(string, seq<(string, string)>)>, j: nat, i: nat): string
    requires j < |endpoints| && i < |endpoints[j].1|
  {
    OptionName(Some(endpoints[j].0), endpoints[j].1[i].0)
  }

  /** A name no endpoint option is defined under keeps what the table had. */
  lemma {:induction false} DefineEndpointsFrame(table: map<string, string>,
                                                endpoints: seq<(string, seq<(string, string)>)>,
                                                methods: set<string>, n: string)
    requires DistinctParams(endpoints)
    requires forall j, i :: 0 <= j < |endpoints| && 0 <= i < |endpoints[j].1| ==> EndpointOptionName(endpoints, j, i) != n
    ensures var r := DefineEndpoints(table, endpoints, methods).0;
            (n in r <==> n in table) && (n in table ==> r[n] == table[n])
    decreases |endpoints|
  {
    if endpoints != [] {
      var (e, params) := endpoints[0];
      var methods' := methods + DefaultCallbacks(e);
      var rest := endpoints[1..];
      assert forall i :: 0 <= i < |params| ==> n != OptionName(Some(e), params[i].0) by {
        forall i | 0 <= i < |params| ensures n != OptionName(Some(e), params[i].0) {
          assert EndpointOptionName(endpoints, 0, i) != n;
        }
      }
      DefineOptionsSpec(table, params, Some(e), methods');
      assert DistinctParams(rest) by {
        forall j | 0 <= j < |rest| ensures DistinctKeys(rest[j].1) {
          assert rest[j] == endpoints[j + 1];
        }
      }
      forall j, i | 0 <= j < |rest| && 0 <= i < |rest[j].1| ensures EndpointOptionName(rest, j, i) != n {
        assert rest[j] == endpoints[j + 1];
        assert EndpointOptionName(endpoints, j + 1, i) != n;
      }
      DefineEndpointsFrame(DefineOptions(table, params, Some(e), methods'), rest, methods', n);
    }
  }

  /** The `i`th option of endpoint `k` is readable under its prefixed name
      with its value, unless a method of that name exists by then (an
      instance method or the default callbacks of endpoints up to `k`) or a
      later endpoint defines an option under the same name. */
  lemma {:induction false} DefineEndpointsOption(table: map<string, string>,
                                                 endpoints: seq<(string, seq<(string, string)>)>,
                                                 methods: set<string>, k: nat, i: nat)
    requires DistinctParams(endpoints)
    requires k < |endpoints| && i < |endpoints[k].1|
    requires EndpointOptionName(endpoints, k, i) !in methods
    requires forall j :: 0 <= j <= k ==> EndpointOptionName(endpoints, k, i) !in DefaultCallbacks(endpoints[j].0)
    requires forall j, i' :: k < j < |endpoints| && 0 <= i' < |endpoints[j].1| ==>
               EndpointOptionName(endpoints, j, i') != EndpointOptionName(endpoints, k, i)
    ensures var r := DefineEndpoints(table, endpoints, methods).0;
            var n := EndpointOptionName(endpoints, k, i);
            n in r && r[n] == endpoints[k].1[i].1
    decreases k
  {
    var n := EndpointOptionName(endpoints, k, i);
    var (e, params) := endpoints[0];
    var methods' := methods + DefaultCallbacks(e);
    var table' := DefineOptions(table, params, Some(e), methods');
    var rest := endpoints[1..];
    assert n !in methods';
    assert DistinctParams(rest) by {
      forall j | 0 <= j < |rest| ensures DistinctKeys(rest[j].1) {
        assert rest[j] == endpoints[j + 1];
      }
    }
    if k == 0 {
      DefineOptionsSpec(table, params, Some(e), methods');
      forall j, i' | 0 <= j < |rest| && 0 <= i' < |rest[j].1| ensures EndpointOptionName(rest, j, i') != n {
        assert rest[j] == endpoints[j + 1];
        assert EndpointOptionName(endpoints, j + 1, i') != n;
      }
      DefineEndpointsFrame(table', rest, methods', n);
    } else {
      assert rest[k - 1] == endpoints[k];
      assert EndpointOptionName(rest, k - 1, i) == n;
      forall j | 0 <= j <= k - 1 ensures n !in DefaultCallbacks(rest[j].0) {
        assert rest[j] == endpoints[j + 1];
      }
      forall j, i' | k - 1 < j < |rest| && 0 <= i' < |rest[j].1| ensures EndpointOptionName(rest, j, i') != n {
        assert rest[j] == endpoints[j + 1];
        assert EndpointOptionName(endpoints, j + 1, i') != n;
      }
      DefineEndpointsOption(table', rest, methods', k - 1, i);
    }
  }

  /** The skip option of an endpoint is read under `<endpoint>_skip_synchronize`. */
  function SkipOptionName(endpoint: string): string {
    OptionName(Some(endpoint), "skip_synchronize")
  }

  /** The `skip_synchronize:` option of endpoint `k` is what the engine later
      finds under `<endpoint>_skip_synchronize`, as long as the model class
      has no instance method of that name and no later endpoint option and
      no trailing option is defined under the same name (endpoint `a` with
      option `b_skip_synchronize` and endpoint `a_b` both give
      `a_b_skip_synchronize`; the later one wins). */
  lemma {:induction false} ApiNotifySkipOption(fields: seq<string>, identificators: seq<(string, string)>,
                                               endpoints: seq<(string, seq<(string, string)>)>,
                                               options: seq<(string, string)>, instanceMethods: set<string>,
                                               k: nat, i: nat)
    requires DistinctParams(endpoints) && DistinctKeys(options)
    requires k < |endpoints| && i < |endpoints[k].1| && endpoints[k].1[i].0 == "skip_synchronize"
    requires SkipOptionName(endpoints[k].0) !in instanceMethods
    requires forall j, i' :: k < j < |endpoints| && 0 <= i' < |endpoints[j].1| ==>
               EndpointOptionName(endpoints, j, i') != SkipOptionName(endpoints[k].0)
    requires forall j :: 0 <= j < |options| ==> options[j].0 != SkipOptionName(endpoints[k].0)
    ensures var c := ApiNotify(fields, identificators, endpoints, options, instanceMethods);
            var n := SkipOptionName(endpoints[k].0);
            && |c.endpoints| == |endpoints| && c.endpoints[k] == endpoints[k].0
            && n in c.classOptions && c.classOptions[n] == endpoints[k].1[i].1
  {
    var n := SkipOptionName(endpoints[k].0);
    var methods := instanceMethods + BuiltinMethods;
    assert EndpointOptionName(endpoints, k, i) == n;
    SkipOptionNotBuiltin(endpoints[k].0);
    forall j | 0 <= j <= k ensures n !in DefaultCallbacks(endpoints[j].0) {
      SkipOptionNotCallback(endpoints[k].0, endpoints[j].0);
    }
    DefineEndpointsOption(map[], endpoints, methods, k, i);
    var (table, methods') := DefineEndpoints(map[], endpoints, methods);
    DefineOptionsSpec(table, options, None, methods');
  }

  /** No method `api_notify` defines by itself is named like a skip option. */
  lemma {:induction false} SkipOptionNotPredefined(e: string, e': string)
    ensures SkipOptionName(e) !in BuiltinMethods + DefaultCallbacks(e')
  {
    SkipOptionNotBuiltin(e);
    SkipOptionNotCallback(e, e');
  }

  lemma {:induction false} SkipOptionNotBuiltin(e: string)
    ensures SkipOptionName(e) !in BuiltinMethods
  {
    var s := SkipOptionName(e);
    assert s == e + "_skip_synchronize";
    assert s[|s| - 1] == 'e';
  }

  /** No endpoint's default callback is named like a skip option: callback
      names end in `success` or `failed`, skip options in `synchronize`. */
  lemma {:induction false} SkipOptionNotCallback(e: string, e': string)
    ensures SkipOptionName(e) !in DefaultCallbacks(e')
  {
    var s := SkipOptionName(e);
    assert s == e + "_skip_synchronize";
    assert s[|s| - 1] == 'e';
    forall v, o | v in Verbs && o in Outcomes ensures CallbackName(e', v, o) != s {
      var c := CallbackName(e', v, o);
      assert c == (e' + "_api_notify_" + v + "_") + o;
      assert c[|c| - 1] == o[|o| - 1];
    }
  }
}
