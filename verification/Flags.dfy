/**
 Application flags: parsing of the command line (the Go `flag` package with the flags d, v, n and p),
 and the arguments handed to the next process on a restart.
 */
module Flags {
  import opened Options
  import opened Text
  import opened Numbers

  datatype Flags = Flags(daemon: bool, verbose: bool, node: int, properties: map<string, string>)

  const DEFAULTS := Flags(false, false, 0, map[])

  /** `keyValueFlags.Set`. */
  function SetProperty(properties: map<string, string>, value: string): map<string, string> {
    match IndexOf(value, '=')
    case None => properties[value := ""]
    case Some(i) => properties[value[..i] := value[i + 1..]]
  }

  /**
   A value written as key, '=' and text, the key without '=', maps that key to that text; a value
   without '=' maps itself to the empty text; and no other property changes.
   */
  lemma SetPropertyWrites(properties: map<string, string>, key: string, text: string)
    requires '=' !in key
    ensures SetProperty(properties, key + "=" + text) == properties[key := text]
    ensures SetProperty(properties, key) == properties[key := ""]
  {
    var value := key + "=" + text;
    assert value == key + ['='] + text;
    IndexAfter(key, '=', text);
    assert value[..|key|] == key && value[|key| + 1..] == text;
  }

  function ParseBool(s: string): Option<bool> {
    if s in ["1", "t", "T", "true", "TRUE", "True"] then Some(true)
    else if s in ["0", "f", "F", "false", "FALSE", "False"] then Some(false)
    else None
  }

  /** One turn of the parser: no further flag, a mistake, or a flag taken. */
  datatype Turn = Stop(rest: seq<string>) | Mistake | Took(flags: Flags, rest: seq<string>)

  function SetBool(f: Flags, name: string, value: bool): Flags
    requires name == "d" || name == "v"
  {
    if name == "d" then f.(daemon := value) else f.(verbose := value)
  }

  function SetValue(f: Flags, name: string, value: string): Option<Flags>
    requires name == "n" || name == "p"
  {
    if name == "p" then Some(f.(properties := SetProperty(f.properties, value)))
    else match ParseInt(value)
      case None => None
      case Some(n) => Some(f.(node := n))
  }

  /** The flag `name`, with the value attached by '=' if there is one. */
  function TakeFlag(f: Flags, name: string, attached: Option<string>, rest: seq<string>): Turn {
    if name == "d" || name == "v" then
      (match attached
       case None => Took(SetBool(f, name, true), rest)
       case Some(text) =>
         match ParseBool(text) case None => Mistake case Some(b) => Took(SetBool(f, name, b), rest))
    else if name == "n" || name == "p" then
      if attached.None? && rest == [] then Mistake
      else
        var (value, more) := if attached.Some? then (attached.value, rest) else (rest[0], rest[1..]);
        match SetValue(f, name, value) case None => Mistake case Some(g) => Took(g, more)
    else Mistake
  }

  function ParseOne(f: Flags, args: seq<string>): Turn {
    if args == [] || |args[0]| < 2 || args[0][0] != '-' then Stop(args)
    else if args[0] == "--" then Stop(args[1..])
    else
      var name := args[0][if args[0][1] == '-' then 2 else 1..];
      if name == [] || name[0] == '-' || name[0] == '=' then Mistake
      else match IndexOf(name, '=')
        case None => TakeFlag(f, name, None, args[1..])
        case Some(i) => TakeFlag(f, name[..i], Some(name[i + 1..]), args[1..])
  }

  /** `FlagSet.Parse`: the flags and the remaining arguments, or `None` for an error. */
  function Parse(f: Flags, args: seq<string>): Option<(Flags, seq<string>)>
    decreases |args|
  {
    match ParseOne(f, args)
    case Stop(rest) => Some((f, rest))
    case Mistake => None
    case Took(g, rest) => Parse(g, rest)
  }

  // ----- What every parsed flag state satisfies

  /** Stored keys never contain '=', and the node number fits an int. */
  ghost predicate Parsed(f: Flags) {
    && (forall key :: key in f.properties ==> '=' !in key)
    && -INT_LIMIT <= f.node < INT_LIMIT
  }

  lemma {:induction false} ParseKeepsParsed(f: Flags, args: seq<string>)
    requires Parsed(f) && Parse(f, args).Some?
    ensures Parsed(Parse(f, args).value.0)
    decreases |args|
  {
    match ParseOne(f, args)
    case Stop(_) =>
    case Took(g, rest) =>
      TurnKeepsParsed(f, args);
      ParseKeepsParsed(g, rest);
  }

  lemma TurnKeepsParsed(f: Flags, args: seq<string>)
    requires Parsed(f) && ParseOne(f, args).Took?
    ensures Parsed(ParseOne(f, args).flags)
  {
    var name := args[0][if args[0][1] == '-' then 2 else 1..];
    match IndexOf(name, '=')
    case None => FlagKeepsParsed(f, name, None, args[1..]);
    case Some(i) => FlagKeepsParsed(f, name[..i], Some(name[i + 1..]), args[1..]);
  }

  lemma FlagKeepsParsed(f: Flags, name: string, attached: Option<string>, rest: seq<string>)
    requires Parsed(f) && TakeFlag(f, name, attached, rest).Took?
    ensures Parsed(TakeFlag(f, name, attached, rest).flags)
  {
    if name == "p" {
      SetPropertyKeepsKeys(f.properties, if attached.Some? then attached.value else rest[0]);
    }
  }

  lemma SetPropertyKeepsKeys(properties: map<string, string>, value: string)
    requires forall key :: key in properties ==> '=' !in key
    ensures forall key :: key in SetProperty(properties, value) ==> '=' !in key
  {
  }

  // ----- The arguments for the next process

  function PropertyArg(properties: map<string, string>, key: string): seq<string> {
    if key == "" || key !in properties then [] else ["-p", key + "=" + properties[key]]
  }

  function PropertyArgs(properties: map<string, string>, order: seq<string>): seq<string> {
    if order == [] then []
    else PropertyArg(properties, order[0]) + PropertyArgs(properties, order[1..])
  }

  function SwitchArgs(f: Flags): seq<string> {
    (if f.verbose then ["-v"] else []) + (if f.node > 0 then ["-n", Itoa(f.node)] else [])
  }

  /** `RegisterServerArgs` with the properties visited in this order. */
  function Registered(f: Flags, order: seq<string>): seq<string> {
    SwitchArgs(f) + PropertyArgs(f.properties, order)
  }

  /** The arguments as text: the switches set, then one "-p" for each named property. */
  lemma RegisteredText(f: Flags, key: string)
    requires key != "" && key in f.properties
    ensures !f.verbose && f.node <= 0 ==> Registered(f, [key]) == ["-p", key + "=" + f.properties[key]]
    ensures f.verbose && f.node > 0 ==>
              Registered(f, [key]) == ["-v", "-n", Itoa(f.node), "-p", key + "=" + f.properties[key]]
    ensures Registered(f, [""]) == Registered(f, [])
  {
    assert [key][1..] == [] && [""][1..] == [];
    assert PropertyArgs(f.properties, [key]) == ["-p", key + "=" + f.properties[key]];
    assert PropertyArgs(f.properties, [""]) == [];
    assert SwitchArgs(f) + [] == SwitchArgs(f);
  }

  const AUTOUPDATE := "autoupdate.file"

  /** The arguments `Start` passes on; `update` is the path copied from, if an update was made. */
  function StartArgs(f: Flags, order: seq<string>, update: Option<string>): seq<string> {
    ["-d"] + Registered(f, order) + UpdateArgs(update) + ["node", "run"]
  }

  function UpdateArgs(update: Option<string>): seq<string> {
    match update
    case None => []
    case Some(path) => ["-p", AUTOUPDATE + "=" + path]
  }

  /** The arguments of a plain restart with an update, as text. */
  lemma StartText(path: string)
    ensures StartArgs(DEFAULTS, [], Some(path)) == ["-d", "-p", "autoupdate.file=" + path, "node", "run"]
    ensures StartArgs(DEFAULTS, [], None) == ["-d", "node", "run"]
  {
    assert Registered(DEFAULTS, []) == [];
    assert AUTOUPDATE + "=" + path == "autoupdate.file=" + path;
  }

  class ApplicationFlags {
    var daemon: bool
    var verbose: bool
    var node: int
    var properties: map<string, string>

    function View(): Flags
      reads this
    {
      Flags(daemon, verbose, node, properties)
    }

    constructor ()
      ensures View() == DEFAULTS
    {
      daemon, verbose, node, properties := false, false, 0, map[];
    }

    method Set(value: string)
      modifies this`properties
      ensures properties == SetProperty(old(properties), value)
    {
      var i := IndexOf(value, '=');
      if i.None? {
        properties := properties[value := ""];
      } else {
        properties := properties[value[..i.value] := value[i.value + 1..]];
      }
    }

    /** The map is walked in any order. */
    method RegisterServerArgs(given: seq<string>) returns (args: seq<string>)
      ensures exists order :: Enumerates(order, properties.Keys) && args == given + Registered(View(), order)
    {
      args := given;
      if verbose {
        args := args + ["-v"];
      }
      if node > 0 {
        args := args + ["-n", Itoa(node)];
      }
      SwitchesAppended(given, View(), args);
      args := AppendProperties(args, properties);
      PropertiesAppended(given, View(), args);
    }
  }

  lemma SwitchesAppended(given: seq<string>, f: Flags, args: seq<string>)
    requires args == given + (if f.verbose then ["-v"] else []) + (if f.node > 0 then ["-n", Itoa(f.node)] else [])
    ensures args == given + SwitchArgs(f)
  {
  }

  lemma PropertiesAppended(given: seq<string>, f: Flags, args: seq<string>)
    requires Appended(given + SwitchArgs(f), f.properties, f.properties.Keys, args)
    ensures exists order :: Enumerates(order, f.properties.Keys) && args == given + Registered(f, order)
  {
    var order :|
      Enumerates(order, f.properties.Keys) && args == given + SwitchArgs(f) + PropertyArgs(f.properties, order);
    AppendedInOrder(given, f, order);
  }

  lemma AppendedInOrder(given: seq<string>, f: Flags, order: seq<string>)
    ensures given + SwitchArgs(f) + PropertyArgs(f.properties, order) == given + Registered(f, order)
  {
    var switches, pairs := SwitchArgs(f), PropertyArgs(f.properties, order);
    assert given + switches + pairs == given + (switches + pairs);
  }

  /** `args` is `given` with the properties of these keys appended, in some order. */
  ghost predicate Appended(given: seq<string>, properties: map<string, string>, keys: set<string>, args: seq<string>) {
    exists order :: Enumerates(order, keys) && args == given + PropertyArgs(properties, order)
  }

  /** The loop over the properties of `RegisterServerArgs`. */
  method AppendProperties(given: seq<string>, properties: map<string, string>)
    returns (args: seq<string>)
    ensures Appended(given, properties, properties.Keys, args)
  {
    args := given;
    var rest := properties.Keys;
    NothingAppended(given, properties);
    assert properties.Keys - rest == {};
    while rest != {}
      invariant rest <= properties.Keys
      invariant Appended(given, properties, properties.Keys - rest, args)
      decreases |rest|
    {
      var k :| k in rest;
      OneMoreAppended(given, properties, properties.Keys - rest, args, k);
      if k != "" {
        args := args + ["-p", k + "=" + properties[k]];
      }
      assert properties.Keys - (rest - {k}) == properties.Keys - rest + {k};
      rest := rest - {k};
    }
    assert properties.Keys - {} == properties.Keys;
  }

  lemma NothingAppended(given: seq<string>, properties: map<string, string>)
    ensures Appended(given, properties, {}, given)
  {
    assert Enumerates([], {}) && given == given + PropertyArgs(properties, []);
  }

  lemma OneMoreAppended(
      given: seq<string>, properties: map<string, string>, keys: set<string>, args: seq<string>, k: string)
    requires Appended(given, properties, keys, args) && k !in keys && k in properties
    ensures Appended(given, properties, keys + {k},
                     if k == "" then args else args + ["-p", k + "=" + properties[k]])
  {
    var order :| Enumerates(order, keys) && args == given + PropertyArgs(properties, order);
    EnumeratesMore(order, keys, k);
    PropertyArgsAppend(properties, order, k);
    assert PropertyArgs(properties, order + [k]) == PropertyArgs(properties, order) + PropertyArg(properties, k);
    assert args + PropertyArg(properties, k) == given + PropertyArgs(properties, order + [k]);
    assert k == "" ==> args + PropertyArg(properties, k) == args;
  }

  lemma EnumeratesMore(order: seq<string>, keys: set<string>, k: string)
    requires Enumerates(order, keys) && k !in keys
    ensures Enumerates(order + [k], keys + {k})
  {
    assert forall key :: key in order + [k] <==> key in order || key == k;
  }

  lemma {:induction false} PropertyArgsAppend(properties: map<string, string>, order: seq<string>, k: string)
    ensures PropertyArgs(properties, order + [k]) == PropertyArgs(properties, order) + PropertyArg(properties, k)
  {
    if order == [] {
      assert order + [k] == [k] && [k][1..] == [];
    } else {
      assert (order + [k])[0] == order[0] && (order + [k])[1..] == order[1..] + [k];
      PropertyArgsAppend(properties, order[1..], k);
    }
  }

  // ----- Reading the arguments back

  lemma TakeSwitch(f: Flags, name: string, rest: seq<string>)
    requires name == "d" || name == "v"
    ensures Parse(f, ["-" + name] + rest) == Parse(SetBool(f, name, true), rest)
  {
    var args := ["-" + name] + rest;
    assert args[0][1..] == name && args[1..] == rest;
    assert IndexOf(name, '=') == None;
  }

  lemma TakeNode(f: Flags, n: nat, rest: seq<string>)
    requires 0 < n < INT_LIMIT
    ensures Parse(f, ["-n", Itoa(n)] + rest) == Parse(f.(node := n), rest)
  {
    ParseIntOfItoa(n);
    TakeArgument(f, "n", Itoa(n), rest);
  }

  lemma TakeArgument(f: Flags, name: string, value: string, rest: seq<string>)
    requires (name == "n" || name == "p") && SetValue(f, name, value).Some?
    ensures Parse(f, ["-" + name, value] + rest) == Parse(SetValue(f, name, value).value, rest)
  {
    var args := ["-" + name, value] + rest;
    assert args[0][1..] == name && args[1..] == [value] + rest && ([value] + rest)[1..] == rest;
    assert IndexOf(name, '=') == None;
    assert ParseOne(f, args) == TakeFlag(f, name, None, args[1..]);
  }

  lemma TwoDashes(f: Flags, rest: seq<string>)
    ensures Parse(f, ["--v"] + rest) == Parse(f.(verbose := true), rest)
  {
    assert ["--v"][0][2..] == "v" && (["--v"] + rest)[1..] == rest;
  }

  /** A switch may have a value attached, which must be a truth value. */
  lemma AttachedValue(f: Flags, text: string, rest: seq<string>)
    ensures Parse(f, ["-v=" + text] + rest)
         == match ParseBool(text) case None => None case Some(b) => Parse(f.(verbose := b), rest)
  {
    var args := ["-v=" + text] + rest;
    var name := "v" + ['='] + text;
    assert args[0][1..] == name && args[1..] == rest;
    IndexAfter("v", '=', text);
    assert name[..1] == "v" && name[2..] == text;
    assert ParseOne(f, args) == TakeFlag(f, "v", Some(text), rest);
  }

  lemma TruthValues()
    ensures ParseBool("true") == Some(true) && ParseBool("1") == Some(true)
    ensures ParseBool("false") == Some(false) && ParseBool("0") == Some(false)
    ensures ParseBool("") == None && ParseBool("yes") == None
  {
  }

  /** A property argument sets exactly its key and value, since the key contains no '='. */
  lemma TakeProperty(f: Flags, key: string, value: string, rest: seq<string>)
    requires '=' !in key
    ensures Parse(f, ["-p", key + "=" + value] + rest) == Parse(f.(properties := f.properties[key := value]), rest)
  {
    SetPropertyWrites(f.properties, key, value);
    assert "-" + "p" == "-p";
    TakeArgument(f, "p", key + "=" + value, rest);
  }

  /** The properties that are passed on. */
  function Named(properties: map<string, string>): map<string, string> { properties - {""} }

  function Picked(properties: map<string, string>, order: seq<string>): map<string, string> {
    map key | key in order && key in properties && key != "" :: properties[key]
  }

  lemma PickedMore(base: map<string, string>, properties: map<string, string>, order: seq<string>)
    requires order != []
    ensures base + Picked(properties, order)
         == (if order[0] == "" || order[0] !in properties then base else base[order[0] := properties[order[0]]])
            + Picked(properties, order[1..])
  {
    assert forall key :: key in order <==> key == order[0] || key in order[1..];
  }

  lemma TakeFirstProperty(f: Flags, properties: map<string, string>, key: string, rest: seq<string>)
    requires key in properties ==> '=' !in key
    ensures var next := if key == "" || key !in properties then f.properties else f.properties[key := properties[key]];
            Parse(f, PropertyArg(properties, key) + rest) == Parse(f.(properties := next), rest)
  {
    if key == "" || key !in properties {
      assert PropertyArg(properties, key) + rest == rest;
    } else {
      TakeProperty(f, key, properties[key], rest);
    }
  }

  lemma {:induction false} TakeProperties(
      f: Flags, properties: map<string, string>, order: seq<string>, rest: seq<string>)
    requires forall key :: key in properties ==> '=' !in key
    ensures Parse(f, PropertyArgs(properties, order) + rest)
         == Parse(f.(properties := f.properties + Picked(properties, order)), rest)
    decreases |order|
  {
    if order == [] {
      assert PropertyArgs(properties, order) + rest == rest;
      assert f.properties + Picked(properties, order) == f.properties;
    } else {
      var key, more := order[0], PropertyArgs(properties, order[1..]) + rest;
      assert PropertyArgs(properties, order) + rest == PropertyArg(properties, key) + more;
      TakeFirstProperty(f, properties, key, more);
      var next := if key == "" || key !in properties then f.properties else f.properties[key := properties[key]];
      TakeProperties(f.(properties := next), properties, order[1..], rest);
      PickedMore(f.properties, properties, order);
    }
  }

  lemma TakeSwitches(f: Flags, given: Flags, rest: seq<string>)
    requires given.node < INT_LIMIT
    ensures var node := if given.node > 0 then given.node else f.node;
            Parse(f, SwitchArgs(given) + rest)
            == Parse(f.(verbose := f.verbose || given.verbose, node := node), rest)
  {
    var nodeArgs := if given.node > 0 then ["-n", Itoa(given.node)] else [];
    var g := f.(verbose := f.verbose || given.verbose);
    if given.verbose {
      assert "-" + "v" == "-v";
      assert SwitchArgs(given) + rest == ["-" + "v"] + (nodeArgs + rest);
      TakeSwitch(f, "v", nodeArgs + rest);
    } else {
      assert SwitchArgs(given) + rest == nodeArgs + rest;
    }
    if given.node > 0 {
      TakeNode(g, given.node, rest);
    } else {
      assert nodeArgs + rest == rest;
    }
  }

  function Updated(properties: map<string, string>, update: Option<string>): map<string, string> {
    match update
    case None => properties
    case Some(path) => properties[AUTOUPDATE := path]
  }

  function Inherited(f: Flags, update: Option<string>): Flags {
    Flags(true, f.verbose, if f.node > 0 then f.node else 0, Updated(Named(f.properties), update))
  }

  const COMMAND := ["node", "run"]

  lemma TakeUpdate(f: Flags, update: Option<string>)
    ensures Parse(f, UpdateArgs(update) + COMMAND)
         == Some((f.(properties := Updated(f.properties, update)), COMMAND))
  {
    match update
    case None => assert UpdateArgs(update) + COMMAND == COMMAND;
    case Some(path) =>
      assert '=' !in AUTOUPDATE;
      TakeProperty(f, AUTOUPDATE, path, COMMAND);
  }

  lemma TakeRegistered(f: Flags, given: Flags, order: seq<string>, rest: seq<string>)
    requires Parsed(given) && Enumerates(order, given.properties.Keys) && f == DEFAULTS.(daemon := true)
    ensures Parse(f, Registered(given, order) + rest)
         == Parse(Flags(true, given.verbose, if given.node > 0 then given.node else 0, Named(given.properties)), rest)
  {
    var props := PropertyArgs(given.properties, order);
    assert Registered(given, order) + rest == SwitchArgs(given) + (props + rest);
    TakeSwitches(f, given, props + rest);
    var g := Flags(true, given.verbose, if given.node > 0 then given.node else 0, DEFAULTS.properties);
    TakeProperties(g, given.properties, order, rest);
    PickedAll(given.properties, order);
  }

  lemma PickedAll(properties: map<string, string>, order: seq<string>)
    requires Enumerates(order, properties.Keys)
    ensures DEFAULTS.properties + Picked(properties, order) == Named(properties)
  {
  }

  /**
   What the next process parses, whatever the order in which the properties were printed: a daemon
   with the same verbosity, the node number unless negative, every property with a non-empty key,
   and the new update file if there is one.
   */
  lemma ChildInherits(f: Flags, order: seq<string>, update: Option<string>)
    requires Parsed(f) && Enumerates(order, f.properties.Keys)
    ensures Parse(DEFAULTS, StartArgs(f, order, update)) == Some((Inherited(f, update), ["node", "run"]))
  {
    var rest := UpdateArgs(update) + COMMAND;
    assert "-" + "d" == "-d";
    assert StartArgs(f, order, update) == ["-" + "d"] + (Registered(f, order) + rest);
    TakeSwitch(DEFAULTS, "d", Registered(f, order) + rest);
    TakeRegistered(DEFAULTS.(daemon := true), f, order, rest);
    TakeUpdate(Flags(true, f.verbose, if f.node > 0 then f.node else 0, Named(f.properties)), update);
  }

  predicate SameSettings(f: Flags, g: Flags) {
    f.verbose == g.verbose && f.node == g.node && f.properties == g.properties
  }

  /**
   A restart restores verbosity, node and all properties exactly when the node number is not negative
   and no property has an empty key.
   */
  lemma RestartRestoresExactly(f: Flags, order: seq<string>)
    requires Parsed(f) && Enumerates(order, f.properties.Keys)
    ensures var parsed := Parse(DEFAULTS, StartArgs(f, order, None));
            && parsed.Some?
            && (SameSettings(parsed.value.0, f) <==> f.node >= 0 && "" !in f.properties)
  {
    ChildInherits(f, order, None);
    assert Named(f.properties) == f.properties <==> "" !in f.properties;
  }

  /** Flags of the processes of a chain of restarts, each with its own update and print order. */
  datatype Generation = Generation(order: seq<string>, update: Option<string>)

  ghost predicate Chain(f: Flags, gens: seq<Generation>, last: Flags)
    decreases |gens|
  {
    if gens == [] then last == f
    else
      && Enumerates(gens[0].order, f.properties.Keys)
      && var parsed := Parse(DEFAULTS, StartArgs(f, gens[0].order, gens[0].update));
      && parsed.Some? && Chain(parsed.value.0, gens[1..], last)
  }

  /** Any number of restarts changes no property but `autoupdate.file`. */
  lemma {:induction false} RestartsChangeNothingElse(f: Flags, gens: seq<Generation>, last: Flags)
    requires Parsed(f) && f.node >= 0 && "" !in f.properties && Chain(f, gens, last)
    ensures last.verbose == f.verbose && last.node == f.node
    ensures last.properties - {AUTOUPDATE} == f.properties - {AUTOUPDATE}
    decreases |gens|
  {
    if gens != [] {
      ChildInherits(f, gens[0].order, gens[0].update);
      InheritedKeeps(f, gens[0].update);
      RestartsChangeNothingElse(Inherited(f, gens[0].update), gens[1..], last);
    }
  }

  lemma InheritedKeeps(f: Flags, update: Option<string>)
    requires Parsed(f) && f.node >= 0 && "" !in f.properties
    ensures var next := Inherited(f, update);
            && Parsed(next) && next.node == f.node && next.verbose == f.verbose && "" !in next.properties
            && next.properties - {AUTOUPDATE} == f.properties - {AUTOUPDATE}
  {
    assert '=' !in AUTOUPDATE && AUTOUPDATE != "";
    assert Named(f.properties) == f.properties;
  }
}
