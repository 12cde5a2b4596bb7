/** `core/base_tools.py`: the tool base class's parameter check and safe
    execution, the plain tool registry with its execution hooks, the tool
    builder, and the retry and rate-limit decorators.

    The clock is a parameter (`now`, seconds since the epoch). What a tool,
    a hook or a decorated function does when it runs is outside this module,
    so its outcome is a parameter too; hooks are named by identities. */
module BaseTools {
  import opened Wrappers
  import Dicts
  import Seqs
  import Json
  import PyNum
  import Text
  import ToolRegistry

  type Definition = ToolRegistry.Definition
  type Response = ToolRegistry.Response

  // ------------------------------------------------------------ parameters

  /** `ToolParameter`, reduced to its name and its `required` flag. */
  datatype Parameter = Parameter(name: string, required: bool)

  /** A tool: its definition, its parameter list, and whether it is an
      `AsyncTool` (run through `safe_execute`) or a plain `BaseTool`. */
  datatype Tool = Tool(definition: Definition, parameters: seq<Parameter>, isAsync: bool)

  /** The names of the required parameters, in declaration order. */
  function RequiredNames(ps: seq<Parameter>): (ns: seq<string>)
    ensures |ns| <= |ps|
    ensures forall n :: n in ns <==> exists p :: p in ps && p.required && p.name == n
  {
    if |ps| == 0 then []
    else
      var rest := RequiredNames(ps[1..]);
      assert forall p :: p in ps <==> p == ps[0] || p in ps[1..];
      (if ps[0].required then [ps[0].name] else []) + rest
  }

  /** The required names that the given parameter names lack, in order. */
  function Missing(ps: seq<Parameter>, given: set<string>): (ms: seq<string>)
    ensures forall n :: n in ms <==> n in RequiredNames(ps) && n !in given
  {
    Seqs.Filter(RequiredNames(ps), n => n !in given)
  }

  /** The text of the ValueError: the missing names shown as a Python list. */
  function MissingMessage(ms: seq<string>): string {
    "缺少必需参数: " + Json.Repr(Json.List(seq(|ms|, i requires 0 <= i < |ms| => Json.Str(ms[i]))))
  }

  /** `validate_parameters`: ValueError exactly when some required parameter
      is absent from the given names. */
  function ValidateParameters(ps: seq<Parameter>, given: set<string>): (r: Result<bool>)
    ensures r.Ok? <==> forall p :: p in ps && p.required ==> p.name in given
    ensures r.Ok? ==> r.value
    ensures r.Raise? ==> r.exc == ValueError
  {
    var ms := Missing(ps, given);
    if ms == [] then Ok(true)
    else
      assert ms[0] in ms;
      Raise(ValueError)
  }

  // --------------------------------------------------------- safe execution

  /** What a tool's `execute` did: it returned, or raised an exception whose
      text is given. */
  datatype Outcome = Returned | Failed(message: string)

  /** The call id `safe_execute` makes: the tool's name, an underscore and
      the clock in whole milliseconds. */
  function CallId(name: string, now: real): string {
    name + "_" + Text.IntToStr(PyNum.Trunc(now * 1000.0))
  }

  /** `AsyncTool.safe_execute` at time `now`: a missing required parameter
      fails before the tool runs, with the check's message; otherwise the
      tool's own outcome decides. */
  function SafeExecute(t: Tool, given: set<string>, now: real, run: Outcome): (r: Response)
    ensures r.id == CallId(t.definition.name, now)
    ensures r.success <==> ValidateParameters(t.parameters, given).Ok? && run.Returned?
    ensures r.success <==> r.error.None?
    ensures ValidateParameters(t.parameters, given).Raise? ==>
              r.error == Some(MissingMessage(Missing(t.parameters, given)))
    ensures ValidateParameters(t.parameters, given).Ok? && run.Failed? ==> r.error == Some(run.message)
  {
    var id := CallId(t.definition.name, now);
    var ms := Missing(t.parameters, given);
    if ms != [] then ToolRegistry.Response(id, false, Some(MissingMessage(ms)))
    else
      match run
      case Returned => ToolRegistry.Response(id, true, None)
      case Failed(m) => ToolRegistry.Response(id, false, Some(m))
  }

  // ------------------------------------------------------------------ hooks

  /** The registry's three hook lists, each in the order hooks were added. */
  datatype Hooks = Hooks(before: seq<string>, after: seq<string>, onError: seq<string>)

  const Events: seq<string> := ["before_execute", "after_execute", "on_error"]

  /** `self.hooks.get(event)`. */
  function HooksFor(h: Hooks, event: string): Option<seq<string>> {
    if event == "before_execute" then Some(h.before)
    else if event == "after_execute" then Some(h.after)
    else if event == "on_error" then Some(h.onError)
    else None
  }

  /** `add_hook`: appends to a known event's list; any other event is a
      ValueError. */
  function AddHook(h: Hooks, event: string, hook: string): (r: Result<Hooks>)
    ensures r.Ok? <==> event in Events
    ensures r.Raise? ==> r.exc == ValueError
    ensures r.Ok? ==> HooksFor(r.value, event) == Some(HooksFor(h, event).value + [hook])
    ensures r.Ok? ==> forall e :: e != event ==> HooksFor(r.value, e) == HooksFor(h, e)
  {
    if event == "before_execute" then Ok(h.(before := h.before + [hook]))
    else if event == "after_execute" then Ok(h.(after := h.after + [hook]))
    else if event == "on_error" then Ok(h.(onError := h.onError + [hook]))
    else Raise(ValueError)
  }

  /** `remove_hook`: drops the first occurrence of a registered hook; an
      unknown event or hook changes nothing. */
  function RemoveHook(h: Hooks, event: string, hook: string): (r: Hooks)
    ensures event !in Events ==> r == h
    ensures event in Events ==>
              var hs := HooksFor(h, event).value;
              && HooksFor(r, event) == Some(ToolRegistry.RemoveFirst(hs, hook))
              && (hook !in hs ==> r == h)
              && (hook in hs ==> multiset(HooksFor(r, event).value) == multiset(hs) - multiset{hook})
    ensures forall e :: e != event ==> HooksFor(r, e) == HooksFor(h, e)
  {
    if event == "before_execute" then h.(before := ToolRegistry.RemoveFirst(h.before, hook))
    else if event == "after_execute" then h.(after := ToolRegistry.RemoveFirst(h.after, hook))
    else if event == "on_error" then h.(onError := ToolRegistry.RemoveFirst(h.onError, hook))
    else h
  }

  /** Adding a hook that was not registered for the event and then removing
      it restores the hooks. */
  lemma AddRemoveHook(h: Hooks, event: string, hook: string)
    requires event in Events && hook !in HooksFor(h, event).value
    ensures AddHook(h, event, hook).Ok?
    ensures RemoveHook(AddHook(h, event, hook).value, event, hook) == h
  {
    if event == "before_execute" {
      ToolRegistry.RemoveFirstLast(h.before, hook);
    } else if event == "after_execute" {
      ToolRegistry.RemoveFirstLast(h.after, hook);
    } else {
      ToolRegistry.RemoveFirstLast(h.onError, hook);
    }
  }

  // --------------------------------------------------------------- registry

  /** `ToolRegistry`: tools by name, category lists of names, and hooks. */
  datatype Registry = Registry(
    tools: Dicts.Dict<string, Tool>,
    categories: Dicts.Dict<string, seq<string>>,
    hooks: Hooks)

  /** A fresh registry: no tools, no categories, three empty hook lists. */
  const Fresh: Registry := Registry([], [], Hooks([], [], []))

  /** The names listed under category `c` (`categories.get(c, [])`). */
  function Listed(r: Registry, c: string): seq<string> {
    Dicts.Get(r.categories, c).GetOr([])
  }

  /** The registry's dictionaries have distinct keys. */
  predicate WellFormed(r: Registry) {
    Dicts.Valid(r.tools) && Dicts.Valid(r.categories)
  }

  /** Every registered tool is listed under its category. */
  ghost predicate Filed(r: Registry) {
    forall n :: n in Dicts.Keys(r.tools) ==>
      n in Listed(r, Dicts.Get(r.tools, n).value.definition.category)
  }

  /** Every category lists at least one name, and no name twice. */
  ghost predicate CategoriesOk(r: Registry) {
    forall c :: c in Dicts.Keys(r.categories) ==>
      Listed(r, c) != [] && Seqs.Distinct(Listed(r, c))
  }

  ghost predicate Inv(r: Registry) {
    WellFormed(r) && Filed(r) && CategoriesOk(r)
  }

  lemma FreshInv()
    ensures Inv(Fresh)
  {
  }

  /** `register`: stores the tool under its name (overwriting), and appends
      the name to its category's list unless already there; a new category
      starts with the name alone. Nothing else changes. */
  function Register(r: Registry, t: Tool): (r': Registry)
    ensures Dicts.Get(r'.tools, t.definition.name) == Some(t)
    ensures forall n :: n != t.definition.name ==> Dicts.Get(r'.tools, n) == Dicts.Get(r.tools, n)
    ensures var before := Listed(r, t.definition.category);
            Dicts.Get(r'.categories, t.definition.category) ==
              Some(if t.definition.name in before then before else before + [t.definition.name])
    ensures forall c :: c != t.definition.category ==>
              Dicts.Get(r'.categories, c) == Dicts.Get(r.categories, c)
    ensures r'.hooks == r.hooks
    ensures WellFormed(r) ==> WellFormed(r')
  {
    var d := t.definition;
    var before := Listed(r, d.category);
    var tools := Dicts.Put(r.tools, d.name, t);
    if Dicts.Get(r.categories, d.category).Some? && d.name in before then
      Registry(tools, r.categories, r.hooks)
    else
      Registry(tools, Dicts.Put(r.categories, d.category, before + [d.name]), r.hooks)
  }

  /** What `unregister` does to the list of the removed tool's category:
      a missing list stays missing, a list without the name is untouched,
      otherwise the name's first occurrence goes and an emptied list is
      deleted. */
  predicate Unfiled(before: Option<seq<string>>, name: string, after: Option<seq<string>>) {
    && (before.None? ==> after.None?)
    && (before.Some? && name !in before.value ==> after == before)
    && (before.Some? && name in before.value ==>
          after == if |before.value| == 1 then None else Some(ToolRegistry.RemoveFirst(before.value, name)))
  }

  /** `unregister`: an unknown name changes nothing; a known tool is deleted
      and unlisted from its category, as `Unfiled` says, and nothing else
      changes. */
  function Unregister(r: Registry, name: string): (r': Registry)
    requires WellFormed(r)
    ensures Dicts.Get(r.tools, name).None? ==> r' == r
    ensures Dicts.Get(r'.tools, name).None?
    ensures forall n :: n != name ==> Dicts.Get(r'.tools, n) == Dicts.Get(r.tools, n)
    ensures Dicts.Get(r.tools, name).Some? ==>
              var c := Dicts.Get(r.tools, name).value.definition.category;
              && Unfiled(Dicts.Get(r.categories, c), name, Dicts.Get(r'.categories, c))
              && forall c' :: c' != c ==> Dicts.Get(r'.categories, c') == Dicts.Get(r.categories, c')
    ensures r'.hooks == r.hooks
    ensures WellFormed(r')
  {
    match Dicts.Get(r.tools, name)
    case None => r
    case Some(t) =>
      var c := t.definition.category;
      var tools := Dicts.Delete(r.tools, name);
      match Dicts.Get(r.categories, c)
      case None => r.(tools := tools)
      case Some(listed) =>
        if name !in listed then r.(tools := tools)
        else
          ToolRegistry.RemoveFirstLength(listed, name);
          var rest := ToolRegistry.RemoveFirst(listed, name);
          if rest == [] then r.(tools := tools, categories := Dicts.Delete(r.categories, c))
          else r.(tools := tools, categories := Dicts.Put(r.categories, c, rest))
  }

  /** Registering keeps every tool filed and every list non-empty and free
      of repeats. */
  lemma RegisterInv(r: Registry, t: Tool)
    requires Inv(r)
    ensures Inv(Register(r, t))
  {
    RegisterFiled(r, t);
    RegisterListsOk(r, t);
  }

  lemma RegisterFiled(r: Registry, t: Tool)
    requires Inv(r)
    ensures Filed(Register(r, t))
  {
    var r' := Register(r, t);
    var d := t.definition;
    forall n | n in Dicts.Keys(r'.tools)
      ensures n in Listed(r', Dicts.Get(r'.tools, n).value.definition.category)
    {
      if n != d.name {
        assert Dicts.Get(r.tools, n).Some?;
      }
    }
  }

  lemma RegisterListsOk(r: Registry, t: Tool)
    requires Inv(r)
    ensures CategoriesOk(Register(r, t))
  {
    var r' := Register(r, t);
    var d := t.definition;
    var before := Listed(r, d.category);
    if d.name !in before {
      if Dicts.Get(r.categories, d.category).Some? {
        assert d.category in Dicts.Keys(r.categories);
      }
      Seqs.DistinctConcat(before, [d.name]);
    }
    forall c | c in Dicts.Keys(r'.categories)
      ensures Listed(r', c) != [] && Seqs.Distinct(Listed(r', c))
    {
      if c != d.category {
        assert c in Dicts.Keys(r.categories);
      }
    }
  }

  /** Unregistering keeps every tool filed and every list non-empty and
      free of repeats. */
  lemma UnregisterInv(r: Registry, name: string)
    requires Inv(r)
    ensures Inv(Unregister(r, name))
  {
    if Dicts.Get(r.tools, name).Some? {
      UnregisterFiled(r, name);
      UnregisterListsOk(r, name);
    }
  }

  lemma UnregisterFiled(r: Registry, name: string)
    requires Inv(r) && Dicts.Get(r.tools, name).Some?
    ensures Filed(Unregister(r, name))
  {
    var r' := Unregister(r, name);
    var c := Dicts.Get(r.tools, name).value.definition.category;
    var listed := Listed(r, c);
    assert name in listed && c in Dicts.Keys(r.categories);
    ToolRegistry.RemoveFirstDistinct(listed, name);
    forall n | n in Dicts.Keys(r'.tools)
      ensures n in Listed(r', Dicts.Get(r'.tools, n).value.definition.category)
    {
      assert n != name && Dicts.Get(r.tools, n).Some?;
    }
  }

  lemma UnregisterListsOk(r: Registry, name: string)
    requires Inv(r) && Dicts.Get(r.tools, name).Some?
    ensures CategoriesOk(Unregister(r, name))
  {
    var r' := Unregister(r, name);
    var c := Dicts.Get(r.tools, name).value.definition.category;
    var listed := Listed(r, c);
    assert name in listed && c in Dicts.Keys(r.categories);
    ToolRegistry.RemoveFirstDistinct(listed, name);
    ToolRegistry.RemoveFirstLength(listed, name);
    forall c' | c' in Dicts.Keys(r'.categories)
      ensures Listed(r', c') != [] && Seqs.Distinct(Listed(r', c'))
    {
      if c' != c {
        assert c' in Dicts.Keys(r.categories);
      }
    }
  }

  /** After `unregister` of a registered tool in a consistent registry, its
      category no longer lists it, and the category is gone exactly when
      the tool was its only entry. */
  lemma UnregisterUnlists(r: Registry, name: string)
    requires Inv(r) && Dicts.Get(r.tools, name).Some?
    ensures var c := Dicts.Get(r.tools, name).value.definition.category;
            && name !in Listed(Unregister(r, name), c)
            && (Dicts.Get(Unregister(r, name).categories, c).None? <==> Listed(r, c) == [name])
  {
    var c := Dicts.Get(r.tools, name).value.definition.category;
    var listed := Listed(r, c);
    assert name in listed && c in Dicts.Keys(r.categories);
    ToolRegistry.RemoveFirstLength(listed, name);
    if |listed| == 1 {
      assert listed == [name];
    }
  }

  /** The definitions of the named tools, in the names' order; KeyError at
      the first name that is not registered. */
  function DefinitionsOf(tools: Dicts.Dict<string, Tool>, names: seq<string>): (r: Result<seq<Definition>>)
    ensures r.Ok? <==> forall n :: n in names ==> Dicts.Get(tools, n).Some?
    ensures r.Raise? ==> r.exc == KeyError
    ensures r.Ok? ==> |r.value| == |names|
    ensures r.Ok? ==> forall i :: 0 <= i < |names| ==> r.value[i] == Dicts.Get(tools, names[i]).value.definition
  {
    if |names| == 0 then Ok([])
    else
      match Dicts.Get(tools, names[0])
      case None => Raise(KeyError)
      case Some(t) =>
        match DefinitionsOf(tools, names[1..])
        case Raise(e) => Raise(e)
        case Ok(rest) => Ok([t.definition] + rest)
  }

  /** `list_tools`: with a non-empty category, the definitions of the names
      listed under it, in listing order (none for an unknown category, and
      KeyError when a listed name is no longer registered); without one,
      every tool's definition in registration order. */
  function ListTools(r: Registry, category: Option<string>): (out: Result<seq<Definition>>)
    ensures (category.None? || category.value == "") ==>
              && out.Ok? && |out.value| == |r.tools|
              && forall i :: 0 <= i < |r.tools| ==> out.value[i] == r.tools[i].1.definition
    ensures category.Some? && category.value != "" ==>
              var names := Listed(r, category.value);
              && (out.Ok? <==> forall n :: n in names ==> Dicts.Get(r.tools, n).Some?)
              && (out.Raise? ==> out.exc == KeyError)
              && (out.Ok? ==> |out.value| == |names|)
              && (out.Ok? ==> forall i :: 0 <= i < |names| ==>
                    out.value[i] == Dicts.Get(r.tools, names[i]).value.definition)
  {
    if category.Some? && category.value != "" then DefinitionsOf(r.tools, Listed(r, category.value))
    else Ok(seq(|r.tools|, i requires 0 <= i < |r.tools| => r.tools[i].1.definition))
  }

  /** Listing one more registered name appends its definition. */
  lemma {:induction false} DefinitionsAppend(tools: Dicts.Dict<string, Tool>, names: seq<string>, n: string)
    requires DefinitionsOf(tools, names).Ok? && Dicts.Get(tools, n).Some?
    ensures DefinitionsOf(tools, names + [n]) ==
              Ok(DefinitionsOf(tools, names).value + [Dicts.Get(tools, n).value.definition])
  {
    var d := Dicts.Get(tools, n).value.definition;
    if |names| > 0 {
      var more := names + [n];
      assert more[0] == names[0] && more[1..] == names[1..] + [n];
      DefinitionsAppend(tools, names[1..], n);
      var head := Dicts.Get(tools, names[0]).value.definition;
      var rest := DefinitionsOf(tools, names[1..]).value;
      assert DefinitionsOf(tools, names).value == [head] + rest;
      assert DefinitionsOf(tools, more).value == [head] + (rest + [d]);
      assert [head] + (rest + [d]) == [head] + rest + [d];
    } else {
      var one := [n];
      assert names + [n] == one && one[0] == n && one[1..] == [];
      assert DefinitionsOf(tools, one).Ok? && |DefinitionsOf(tools, one).value| == 1;
      assert DefinitionsOf(tools, one).value == [d];
      assert DefinitionsOf(tools, names).value + [d] == [d];
    }
  }

  /** Two tool tables that agree on the listed names list them alike. */
  lemma {:induction false} DefinitionsAgree(a: Dicts.Dict<string, Tool>, b: Dicts.Dict<string, Tool>, names: seq<string>)
    requires forall n :: n in names ==> Dicts.Get(a, n) == Dicts.Get(b, n)
    ensures DefinitionsOf(a, names) == DefinitionsOf(b, names)
  {
    if |names| > 0 {
      assert forall n :: n in names[1..] ==> n in names;
      DefinitionsAgree(a, b, names[1..]);
    }
  }

  /** Registering a tool whose name its category does not list yet adds its
      definition at the end of that category's listing. */
  lemma RegisterListsLast(r: Registry, t: Tool)
    requires t.definition.category != ""
    requires t.definition.name !in Listed(r, t.definition.category)
    requires ListTools(r, Some(t.definition.category)).Ok?
    ensures ListTools(Register(r, t), Some(t.definition.category)) ==
              Ok(ListTools(r, Some(t.definition.category)).value + [t.definition])
  {
    var c := t.definition.category;
    var r' := Register(r, t);
    var names := Listed(r, c);
    assert Listed(r', c) == names + [t.definition.name];
    DefinitionsAgree(r.tools, r'.tools, names);
    DefinitionsAppend(r'.tools, names, t.definition.name);
  }

  /** Re-registering a name under another category leaves it listed under
      the old one too, so unregistering it afterwards makes listing the old
      category raise KeyError. */
  lemma StaleListing(r: Registry, t: Tool, prev: Tool)
    requires Inv(r)
    requires Dicts.Get(r.tools, t.definition.name) == Some(prev)
    requires prev.definition.category != t.definition.category && prev.definition.category != ""
    ensures Inv(Register(r, t))
    ensures ListTools(Unregister(Register(r, t), t.definition.name), Some(prev.definition.category)).Raise?
  {
    var name := t.definition.name;
    var was := prev.definition.category;
    RegisterInv(r, t);
    var r1 := Register(r, t);
    var r2 := Unregister(r1, name);
    assert name in Listed(r, was);
    assert Listed(r1, was) == Listed(r, was);
    assert Listed(r2, was) == Listed(r1, was);
    assert Dicts.Get(r2.tools, name).None?;
  }

  // -------------------------------------------------------------- execution

  /** `ToolCall`, reduced to its id, the tool's name, and the names of the
      given parameters. */
  datatype Call = Call(id: string, name: string, given: set<string>)

  /** `execute_tool` at time `now`, where `run` is what the tool's `execute`
      does: the response, and the hooks run in order (the `before_execute`
      hooks, then `after_execute` on success or `on_error` on failure; a
      hook that raises is logged and the rest still run). */
  function ExecuteTool(r: Registry, call: Call, now: real, run: Outcome): (out: (Response, seq<string>))
    ensures Dicts.Get(r.tools, call.name).None? ==>
              out == (ToolRegistry.Response(call.id, false, Some("工具不存在: " + call.name)), [])
    ensures Dicts.Get(r.tools, call.name).Some? ==>
              out.1 == r.hooks.before + (if out.0.success then r.hooks.after else r.hooks.onError)
    ensures Dicts.Get(r.tools, call.name).Some? && !Dicts.Get(r.tools, call.name).value.isAsync ==>
              && out.0.id == call.id
              && (out.0.success <==> run.Returned?)
              && (run.Failed? ==> out.0.error == Some(run.message))
    ensures Dicts.Get(r.tools, call.name).Some? && Dicts.Get(r.tools, call.name).value.isAsync ==>
              out.0 == SafeExecute(Dicts.Get(r.tools, call.name).value, call.given, now, run)
  {
    match Dicts.Get(r.tools, call.name)
    case None => (ToolRegistry.Response(call.id, false, Some("工具不存在: " + call.name)), [])
    case Some(t) =>
      var resp :=
        if t.isAsync then SafeExecute(t, call.given, now, run)
        else match run
          case Returned => ToolRegistry.Response(call.id, true, None)
          case Failed(m) => ToolRegistry.Response(call.id, false, Some(m));
      (resp, r.hooks.before + (if resp.success then r.hooks.after else r.hooks.onError))
  }

  // ---------------------------------------------------------------- builder

  /** `ToolBuilder`: the definition under construction, the parameters
      added so far, and whether an execute function was set. */
  datatype Builder = Builder(definition: Definition, parameters: seq<Parameter>, hasExecute: bool)

  /** A new builder: empty name and description, category "general". */
  const NewBuilder: Builder := Builder(ToolRegistry.Definition("", "", "general", []), [], false)

  function WithName(b: Builder, name: string): Builder {
    b.(definition := b.definition.(name := name))
  }

  function WithDescription(b: Builder, description: string): Builder {
    b.(definition := b.definition.(description := description))
  }

  function WithCategory(b: Builder, category: string): Builder {
    b.(definition := b.definition.(category := category))
  }

  function WithParameter(b: Builder, name: string, required: bool): Builder {
    b.(parameters := b.parameters + [Parameter(name, required)])
  }

  function WithTags(b: Builder, tags: seq<string>): Builder {
    b.(definition := b.definition.(tags := b.definition.tags + tags))
  }

  function WithExecute(b: Builder): Builder {
    b.(hasExecute := true)
  }

  /** `build`: ValueError for an empty name or when no execute function was
      set; otherwise an asynchronous tool with the collected definition and
      parameters. */
  function Build(b: Builder): (r: Result<Tool>)
    ensures r.Ok? <==> b.definition.name != "" && b.hasExecute
    ensures r.Raise? ==> r.exc == ValueError
    ensures r.Ok? ==> r.value.definition == b.definition && r.value.parameters == b.parameters
    ensures r.Ok? ==> r.value.isAsync
  {
    if b.definition.name == "" then Raise(ValueError)
    else if !b.hasExecute then Raise(ValueError)
    else Ok(Tool(b.definition, b.parameters, true))
  }

  /** A builder chain succeeds exactly when it names the tool and sets an
      execute function, whatever else it sets. */
  lemma BuildChain(name: string, description: string, category: string,
                   params: seq<(string, bool)>, tags: seq<string>, execute: bool)
    ensures var b := Chain(name, description, category, params, tags, execute);
            && (Build(b).Ok? <==> name != "" && execute)
            && (Build(b).Ok? ==>
                  Build(b).value.definition == ToolRegistry.Definition(name, description, category, tags))
            && (Build(b).Ok? ==> |Build(b).value.parameters| == |params|)
  {
    ChainParams(WithCategory(WithDescription(WithName(NewBuilder, name), description), category), params);
  }

  /** The builder after `.name().description().category()`, one
      `.parameter()` per entry, `.tag(*tags)` and, if `execute`, `.execute()`. */
  function Chain(name: string, description: string, category: string,
                 params: seq<(string, bool)>, tags: seq<string>, execute: bool): Builder
  {
    var b := WithTags(AddParams(WithCategory(WithDescription(WithName(NewBuilder, name), description), category), params), tags);
    if execute then WithExecute(b) else b
  }

  function AddParams(b: Builder, params: seq<(string, bool)>): Builder
    decreases |params|
  {
    if |params| == 0 then b
    else AddParams(WithParameter(b, params[0].0, params[0].1), params[1..])
  }

  lemma {:induction false} ChainParams(b: Builder, params: seq<(string, bool)>)
    ensures AddParams(b, params).definition == b.definition
    ensures AddParams(b, params).hasExecute == b.hasExecute
    ensures |AddParams(b, params).parameters| == |b.parameters| + |params|
    decreases |params|
  {
    if |params| > 0 {
      ChainParams(WithParameter(b, params[0].0, params[0].1), params[1..]);
    }
  }

  /** A built tool, once registered, runs through `safe_execute`: the call
      succeeds exactly when every required parameter is given and the
      execute function returns, and the response carries the time-based
      call id rather than the call's own id. */
  lemma ExecuteBuilt(r: Registry, b: Builder, call: Call, now: real, run: Outcome)
    requires Build(b).Ok? && call.name == b.definition.name
    ensures var out := ExecuteTool(Register(r, Build(b).value), call, now, run);
            && (out.0.success <==>
                  (forall p :: p in b.parameters && p.required ==> p.name in call.given) && run.Returned?)
            && out.0.id == CallId(b.definition.name, now)
  {
  }

  // ------------------------------------------------------------------ retry

  /** The attempts of `retry` from attempt `k` on. */
  function RetryFrom<V>(k: nat, maxAttempts: int, hasArgs: bool, attempt: nat -> Result<V>): (r: Result<V>)
    requires k < maxAttempts
    ensures hasArgs ==> (r.Ok? <==> exists i :: k <= i < maxAttempts && attempt(i).Ok?)
    ensures r.Ok? ==> exists i :: k <= i < maxAttempts && r == attempt(i) && forall j :: k <= j < i ==> attempt(j).Raise?
    ensures hasArgs && r.Raise? ==> r == attempt(maxAttempts - 1)
    ensures !hasArgs ==> r == if attempt(k).Ok? then attempt(k) else Raise(IndexError)
    decreases maxAttempts - k
  {
    match attempt(k)
    case Ok(v) => Ok(v)
    case Raise(e) =>
      if !hasArgs then Raise(IndexError)
      else if k == maxAttempts - 1 then Raise(e)
      else RetryFrom(k + 1, maxAttempts, hasArgs, attempt)
  }

  /** `retry(max_attempts)` around a function whose `i`-th call gives
      `attempt(i)`: the first success is returned; after `max_attempts`
      failures the last exception is raised again. With no attempts allowed
      it raises `None`, a TypeError. A failure of a function called without
      positional arguments turns into IndexError, since the log line reads
      `args[0]`. */
  function Retry<V>(maxAttempts: int, hasArgs: bool, attempt: nat -> Result<V>): (r: Result<V>)
    ensures maxAttempts <= 0 ==> r == Raise(TypeError)
    ensures maxAttempts > 0 && hasArgs ==> (r.Ok? <==> exists i :: 0 <= i < maxAttempts && attempt(i).Ok?)
    ensures r.Ok? ==> exists i :: 0 <= i < maxAttempts && r == attempt(i) && forall j :: 0 <= j < i ==> attempt(j).Raise?
    ensures maxAttempts > 0 && hasArgs && r.Raise? ==> r == attempt(maxAttempts - 1)
    ensures maxAttempts > 0 && !hasArgs ==> r == if attempt(0).Ok? then attempt(0) else Raise(IndexError)
  {
    if maxAttempts <= 0 then Raise(TypeError) else RetryFrom(0, maxAttempts, hasArgs, attempt)
  }

  // ------------------------------------------------------------- rate limit

  /** The recorded call times still inside the one-minute window at `now`. */
  function Recent(times: seq<real>, now: real): seq<real> {
    Seqs.Filter(times, t => now - t < 60.0)
  }

  /** One call through `rate_limit(cpm)` at time `now`, given the record of
      earlier call times: whether it is admitted, and the record after it.
      Times a minute old or more leave the record; the call is admitted
      exactly when fewer than `cpm` remain, and then joins the record. */
  function Admit(times: seq<real>, now: real, cpm: int): (r: (bool, seq<real>))
    ensures r.0 <==> |Recent(times, now)| < cpm
    ensures forall t :: t in r.1 <==> (t in times && now - t < 60.0) || (r.0 && t == now)
    ensures |r.1| == |Recent(times, now)| + (if r.0 then 1 else 0)
  {
    var recent := Recent(times, now);
    if |recent| < cpm then (true, recent + [now]) else (false, recent)
  }

  /** The decorated call: over the limit it raises Exception (IndexError
      when the function has no positional argument for the message to
      name), otherwise it gives the function's own result. */
  function RateLimited<V>(times: seq<real>, now: real, cpm: int, hasArgs: bool, call: Result<V>): (r: (Result<V>, seq<real>))
    ensures r.1 == Admit(times, now, cpm).1
    ensures |Recent(times, now)| < cpm ==> r.0 == call
    ensures |Recent(times, now)| >= cpm ==> r.0 == Raise(if hasArgs then Exception else IndexError)
  {
    var (admitted, record) := Admit(times, now, cpm);
    if admitted then (call, record) else (Raise(if hasArgs then Exception else IndexError), record)
  }

  /** A run of calls through one limiter at the given times, from an empty
      record: which calls were admitted, and the record after the last. */
  function Run(ts: seq<real>, cpm: int): (r: (seq<bool>, seq<real>))
    ensures |r.0| == |ts|
  {
    if |ts| == 0 then ([], [])
    else
      var prev := Run(ts[..|ts| - 1], cpm);
      var step := Admit(prev.1, ts[|ts| - 1], cpm);
      (prev.0 + [step.0], step.1)
  }

  /** How many of the admitted calls fall within the minute before `now`. */
  function InWindow(ts: seq<real>, admitted: seq<bool>, now: real): nat
    requires |admitted| == |ts|
  {
    if |ts| == 0 then 0
    else
      InWindow(ts[..|ts| - 1], admitted[..|ts| - 1], now)
      + (if admitted[|ts| - 1] && now - ts[|ts| - 1] < 60.0 then 1 else 0)
  }

  predicate Nondecreasing(ts: seq<real>) {
    forall i, j :: 0 <= i < j < |ts| ==> ts[i] <= ts[j]
  }

  /** Dropping the times a minute old at `t` and then at a later `now` is
      dropping them at `now`. */
  lemma {:induction false} RecentNested(s: seq<real>, t: real, now: real)
    requires t <= now
    ensures Recent(Recent(s, t), now) == Recent(s, now)
  {
    if |s| > 0 {
      assert Recent(s, t) == (if t - s[0] < 60.0 then [s[0]] else []) + Recent(s[1..], t);
      Seqs.FilterConcat(if t - s[0] < 60.0 then [s[0]] else [], Recent(s[1..], t), x => now - x < 60.0);
      RecentNested(s[1..], t, now);
    }
  }

  /** Later, fewer admitted calls are within the minute. */
  lemma {:induction false} InWindowLater(ts: seq<real>, admitted: seq<bool>, a: real, b: real)
    requires |admitted| == |ts| && a <= b
    ensures InWindow(ts, admitted, b) <= InWindow(ts, admitted, a)
  {
    if |ts| > 0 {
      InWindowLater(ts[..|ts| - 1], admitted[..|ts| - 1], a, b);
    }
  }

  /** At any time no earlier than the last call, the limiter's record holds
      exactly the admitted calls of the last minute. */
  lemma {:induction false} RecordIsWindow(ts: seq<real>, cpm: int, now: real)
    requires Nondecreasing(ts) && (|ts| > 0 ==> ts[|ts| - 1] <= now)
    ensures |Recent(Run(ts, cpm).1, now)| == InWindow(ts, Run(ts, cpm).0, now)
  {
    if |ts| > 0 {
      var n := |ts|;
      var p := ts[..n - 1];
      var t := ts[n - 1];
      var prev := Run(p, cpm);
      var step := Admit(prev.1, t, cpm);
      var added: seq<real> := if step.0 then [t] else [];
      assert step.1 == Recent(prev.1, t) + added;
      Seqs.FilterConcat(Recent(prev.1, t), added, x => now - x < 60.0);
      RecentNested(prev.1, t, now);
      assert |Recent(added, now)| == if step.0 && now - t < 60.0 then 1 else 0;
      RecordIsWindow(p, cpm, now);
      var adm := prev.0 + [step.0];
      assert Run(ts, cpm).0 == adm;
      assert ts[..n - 1] == p && adm[..n - 1] == prev.0;
    }
  }

  /** A call is admitted exactly when fewer than `cpm` admitted calls fall
      in the minute before it. */
  lemma AdmittedIff(ts: seq<real>, cpm: int)
    requires Nondecreasing(ts) && |ts| > 0
    ensures Run(ts, cpm).0[|ts| - 1] <==>
              InWindow(ts[..|ts| - 1], Run(ts[..|ts| - 1], cpm).0, ts[|ts| - 1]) < cpm
  {
    RecordIsWindow(ts[..|ts| - 1], cpm, ts[|ts| - 1]);
  }

  /** The limit holds: at the time of each call, at most `cpm` admitted
      calls (none when `cpm` is not positive) fall in the last minute. */
  lemma {:induction false} RateLimitHolds(ts: seq<real>, cpm: int)
    requires Nondecreasing(ts) && |ts| > 0
    ensures InWindow(ts, Run(ts, cpm).0, ts[|ts| - 1]) <= PyNum.Max(cpm, 0)
  {
    var n := |ts|;
    var p := ts[..n - 1];
    var t := ts[n - 1];
    var prev := Run(p, cpm);
    var step := Admit(prev.1, t, cpm);
    var adm := prev.0 + [step.0];
    assert Run(ts, cpm).0 == adm;
    assert ts[..n - 1] == p && adm[..n - 1] == prev.0;
    RecordIsWindow(p, cpm, t);
    if !step.0 && n > 1 {
      InWindowLater(p, prev.0, p[n - 2], t);
      RateLimitHolds(p, cpm);
    }
  }
}
