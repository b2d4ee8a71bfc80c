/**
 * The command table of the command-line tool (esit/commands/main.py). Each
 * command is a function that a decorator files in the module-level dict
 * `COMMANDS` under the function's own name, as the module is loaded; `run`
 * then looks the command named on the command line up in that dict.
 *
 * The command functions of main.py are the same calls as those of crud.py,
 * alias.py and migrate.py, so their behaviour is modelled once, by
 * `CrudCommand`, `AliasCommand` and `MigrateCommand`; this module models the
 * table.
 */
module CommandTable {
  import opened Wrappers

  /** A command function, named by the command it implements. */
  datatype Handler = Get | Put | Copy | Wrap | Migrate | Point | Experiment

  /** The function's `__name__`, under which the decorator files it. */
  function Name(h: Handler): string {
    match h
    case Get => "get"
    case Put => "put"
    case Copy => "copy"
    case Wrap => "wrap"
    case Migrate => "migrate"
    case Point => "point"
    case Experiment => "experiment"
  }

  /** Every command function has a name of its own. */
  lemma NameInjective(a: Handler, b: Handler)
    ensures Name(a) == Name(b) <==> a == b
  {
  }

  /** The table after the functions `hs` were decorated, in that order, starting from `table`. */
  function Registered(table: map<string, Handler>, hs: seq<Handler>): map<string, Handler>
    decreases |hs|
  {
    if hs == [] then table
    else Registered(table[Name(hs[0]) := hs[0]], hs[1..])
  }

  /** The command functions of main.py, in the order the module defines them. */
  const MainHandlers: seq<Handler> := [Get, Put, Copy, Wrap, Migrate]

  class Commands {
    /** `COMMANDS`. */
    var table: map<string, Handler>

    /** Every function in the table is filed under its own name. */
    ghost predicate Filed()
      reads this
    {
      forall n :: n in table ==> Name(table[n]) == n
    }

    /** The dict as the module starts it: empty. */
    constructor ()
      ensures table == map[] && Filed()
    {
      table := map[];
    }

    /**
     * `_command`: file `h` under its name, in place of any function filed
     * under that name before, and hand `h` back unchanged.
     */
    method Register(h: Handler) returns (r: Handler)
      requires Filed()
      modifies this
      ensures Filed()
      ensures r == h
      ensures table == Registered(old(table), [h])
    {
      table := table[Name(h) := h];
      r := h;
    }

    /** Loading main.py: its five command functions are decorated in the order the module defines them. */
    method LoadMain()
      requires Filed()
      modifies this
      ensures Filed()
      ensures table == Registered(old(table), MainHandlers)
    {
      var h := Register(Get);
      h := Register(Put);
      h := Register(Copy);
      h := Register(Wrap);
      h := Register(Migrate);
      MainSteps();
    }

    /** `COMMANDS[name]` in `run`: the function filed under `name`, or `None` where the lookup raises. */
    function Lookup(name: string): (r: Option<Handler>)
      requires Filed()
      reads this
      ensures r.None? <==> name !in table
      ensures r.Some? ==> Name(r.value) == name
    {
      if name in table then Some(table[name]) else None
    }
  }

  /** The five decorations of main.py, one after the other. */
  lemma MainSteps()
    ensures MainHandlers[1..] == [Put, Copy, Wrap, Migrate]
    ensures MainHandlers[1..][1..] == [Copy, Wrap, Migrate]
    ensures MainHandlers[1..][1..][1..] == [Wrap, Migrate]
    ensures MainHandlers[1..][1..][1..][1..] == [Migrate]
    ensures MainHandlers[1..][1..][1..][1..][1..] == []
  {
  }

  /** Decorating functions of other names leaves the entry of `name` as it was. */
  lemma {:induction false} RegisteredKeeps(table: map<string, Handler>, hs: seq<Handler>, name: string)
    requires forall i :: 0 <= i < |hs| ==> Name(hs[i]) != name
    ensures var t := Registered(table, hs);
      (name in t <==> name in table) && (name in table ==> t[name] == table[name])
    decreases |hs|
  {
    if hs != [] {
      assert Name(hs[0]) != name;
      assert forall i :: 0 <= i < |hs[1..]| ==> hs[1..][i] == hs[i + 1];
      RegisteredKeeps(table[Name(hs[0]) := hs[0]], hs[1..], name);
    }
  }

  /** The entry of a name is the last function decorated under it. */
  lemma {:induction false} RegisteredLast(table: map<string, Handler>, hs: seq<Handler>, i: nat)
    requires i < |hs| && forall j :: i < j < |hs| ==> Name(hs[j]) != Name(hs[i])
    ensures var t := Registered(table, hs);
      Name(hs[i]) in t && t[Name(hs[i])] == hs[i]
    decreases |hs|
  {
    var rest := hs[1..];
    assert forall j :: 0 <= j < |rest| ==> rest[j] == hs[j + 1];
    if i == 0 {
      RegisteredKeeps(table[Name(hs[0]) := hs[0]], rest, Name(hs[0]));
    } else {
      RegisteredLast(table[Name(hs[0]) := hs[0]], rest, i - 1);
    }
  }

  /** A name is filed after the decorations exactly when it was before or one of the functions has it. */
  lemma {:induction false} RegisteredNames(table: map<string, Handler>, hs: seq<Handler>, name: string)
    ensures name in Registered(table, hs) <==> name in table || exists i :: 0 <= i < |hs| && Name(hs[i]) == name
    decreases |hs|
  {
    if hs != [] {
      var rest := hs[1..];
      RegisteredNames(table[Name(hs[0]) := hs[0]], rest, name);
      if exists i :: 0 <= i < |rest| && Name(rest[i]) == name {
        var i :| 0 <= i < |rest| && Name(rest[i]) == name;
        assert Name(hs[i + 1]) == name;
      }
      if exists i :: 0 <= i < |hs| && Name(hs[i]) == name {
        var i :| 0 <= i < |hs| && Name(hs[i]) == name;
        if i > 0 {
          assert Name(rest[i - 1]) == name;
        }
      }
    }
  }

  /**
   * The table main.py builds has exactly the commands get, put, copy, wrap and
   * migrate, each under its own name; `point` and `experiment` cannot be run
   * through it.
   */
  lemma MainTable()
    ensures Registered(map[], MainHandlers)
         == map["get" := Get, "put" := Put, "copy" := Copy, "wrap" := Wrap, "migrate" := Migrate]
    ensures "point" !in Registered(map[], MainHandlers) && "experiment" !in Registered(map[], MainHandlers)
  {
    MainSteps();
  }
}
