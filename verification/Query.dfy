/** The query language of the storage consoles. */
module Query {
  import opened Options
  import opened Text
  import opened Base64

  type Store = map<string, seq<Byte>>
  type Stores = map<string, Store>

  /**
   What lies outside: the order in which a store enumerates keys, `filepath.Match`, and the two
   printed forms of the list of store names.
   */
  datatype Env = Env(
    listing: set<string> -> seq<string>, glob: (string, string) -> bool, joined: string, printed: string)

  ghost predicate Lists(env: Env) {
    forall keys :: Enumerates(env.listing(keys), keys)
  }

  /** The store after a query, the contents passed to the callback, and whether an error is returned. */
  datatype Outcome = Outcome(stores: Stores, replies: seq<string>, failed: bool)

  /** One trailing ';' is dropped. */
  function WithoutSemicolon(query: string): string {
    if HasSuffix(query, ";") then query[..|query| - 1] else query
  }

  /** Command word and trimmed arguments. */
  function Split(query: string): (string, string) {
    var q := WithoutSemicolon(query);
    match IndexOf(q, ' ')
    case None => (q, Trim(q[|q|..]))
    case Some(i) => (q[..i], Trim(q[i..]))
  }

  function Args(query: string): string { Split(query).1 }

  /** Key and value text of `set`. */
  function SetArgs(args: string): Option<(string, string)> {
    match IndexOf(args, ' ')
    case None => None
    case Some(i) => Some((Trim(args[..i]), Trim(args[i..])))
  }

  /** Key and decoded value of `set`, unless there is no value or it is not Base64. */
  function Assignment(args: string): Option<(string, seq<Byte>)> {
    match SetArgs(args)
    case None => None
    case Some((key, text)) =>
      match Decode(STD, text)
      case None => None
      case Some(value) => Some((key, value))
  }

  function Get(s: Store, key: string): seq<Byte> { if key in s then s[key] else [] }

  function Under(s: Store, prefix: string): Store {
    map key | key in s && HasPrefix(key, prefix) :: s[key]
  }

  function KeysUnder(s: Store, prefix: string): set<string> { set key | key in s && HasPrefix(key, prefix) }

  function KeysMatching(env: Env, s: Store, pattern: string): set<string> {
    set key | key in s && env.glob(pattern, key)
  }

  function DumpLine(key: string, value: seq<Byte>): string { key + ", " + Encode(STD, value) }

  function DumpLines(order: seq<string>, s: Store): (lines: seq<string>) {
    if order == [] then [] else [DumpLine(order[0], Get(s, order[0]))] + DumpLines(order[1..], s)
  }

  function Globbed(env: Env, order: seq<string>, pattern: string): seq<string> {
    if order == [] then []
    else (if env.glob(pattern, order[0]) then [order[0]] else []) + Globbed(env, order[1..], pattern)
  }

  datatype Command = Help | List | GetKey | SetKey | Remove | Dump | Scan | Search | Unknown

  function CommandOf(word: string): Command {
    if word == "help" then Help
    else if word == "list" then List
    else if word == "get" then GetKey
    else if word == "set" then SetKey
    else if word == "rm" then Remove
    else if word == "dump" then Dump
    else if word == "scan" then Scan
    else if word == "search" then Search
    else Unknown
  }

  function Asked(query: string): Command { CommandOf(Split(query).0) }

  const HELP := "available commands: help, list, get, set, rm, dump, scan, search"

  /** `ExecuteQuery` with a callback that always accepts. */
  function Execute(env: Env, stores: Stores, name: string, query: string): Outcome {
    if name !in stores then Outcome(stores, [], true)
    else
      Perform(env, stores, name, Asked(query), Args(query))
  }

  function Perform(env: Env, stores: Stores, name: string, command: Command, args: string): Outcome
    requires name in stores
  {
    var s := stores[name];
    match command
    case Help => Outcome(stores, [HELP], false)
    case List => Outcome(stores, [env.joined], false)
    case GetKey => Outcome(stores, [Encode(STD, Get(s, args))], false)
    case SetKey =>
      (match Assignment(args)
       case None => Outcome(stores, [], true)
       case Some((key, value)) => Outcome(stores[name := s[key := value]], ["OK"], false))
    case Remove => Outcome(stores[name := s - {args}], ["OK"], false)
    case Dump => Outcome(stores, DumpLines(env.listing(Under(s, args).Keys), s), false)
    case Scan => Outcome(stores, env.listing(Under(s, args).Keys), false)
    case Search => Outcome(stores, Globbed(env, env.listing(s.Keys), args), false)
    case Unknown => Outcome(stores, [], true)
  }

  // ----- Which keys a query can name

  /** Keys that `set` can write: non-empty, without a blank, no space character at either end. */
  predicate Addressable(key: string) { key != [] && ' ' !in key && Tight(key) }

  /** What a command makes of the text after its blank. */
  function Argument(text: string): string { Trim(WithoutSemicolon(text)) }

  lemma SplitCommand(cmd: string, rest: string)
    requires ' ' !in cmd
    ensures Split(cmd + " " + rest) == (cmd, Argument(rest))
  {
    var q, short := cmd + " " + rest, WithoutSemicolon(rest);
    assert WithoutSemicolon(q) == cmd + [' '] + short by {
      assert q[|q| - 1..] == if rest == [] then " " else rest[|rest| - 1..];
    }
    IndexAfter(cmd, ' ', short);
    assert WithoutSemicolon(q)[..|cmd|] == cmd && WithoutSemicolon(q)[|cmd|..] == [' '] + short;
    TrimLeading(' ', short);
  }

  lemma CommandWords()
    ensures CommandOf("get") == GetKey && CommandOf("set") == SetKey && CommandOf("rm") == Remove
    ensures CommandOf("dump") == Dump && CommandOf("scan") == Scan && CommandOf("search") == Search
    ensures CommandOf("help") == Help && CommandOf("list") == List
  {
    assert "dump"[0] != "help"[0] && "dump"[0] != "list"[0] && "get"[0] != "set"[0];
    assert "scan"[0] != "help"[0] && "scan"[0] != "list"[0] && "scan"[0] != "dump"[0];
    assert "list"[0] != "help"[0];
  }

  /** A query that is one word. */
  lemma SplitWord(word: string)
    requires ' ' !in word && !HasSuffix(word, ";")
    ensures Split(word) == (word, "")
  {
    assert word[|word|..] == "" && word[..|word|] == word;
  }

  /** A command reads the very text it is given exactly when no space and no ';' is cut off. */
  lemma ArgumentExactly(text: string)
    ensures Argument(text) == text <==> Tight(text) && !HasSuffix(text, ";")
    ensures Tight(Argument(text))
  {
    TrimIsTight(WithoutSemicolon(text));
    TrimShortens(WithoutSemicolon(text));
  }

  /** An encoded non-empty value is one word that does not end in ';'. */
  lemma EncodedIsWord(value: seq<Byte>)
    requires value != []
    ensures var text := Encode(STD, value);
            text != [] && ' ' !in text && Tight(text) && !HasSuffix(text, ";")
  {
    EncodedText(STD, value);
    var text := Encode(STD, value);
    WordOfCode(text);
  }

  lemma WordOfCode(text: string)
    requires text != [] && forall c :: c in text ==> ValueOf(false, c).Some? || c == '='
    ensures ' ' !in text && Tight(text) && !HasSuffix(text, ";")
  {
    assert text[0] in text && text[|text| - 1] in text;
  }

  function SetQuery(key: string, text: string): string { "set " + key + " " + text }

  /** What `set` makes of a query written for a key and a value text. */
  function SetFor(key: string, text: string): Option<(string, string)> {
    SetArgs(Split(SetQuery(key, text)).1)
  }

  lemma SplitSet(key: string, text: string)
    requires text != [] && !HasSuffix(text, ";")
    ensures Split(SetQuery(key, text)) == ("set", Trim(key + " " + text))
  {
    var rest := key + " " + text;
    assert SetQuery(key, text) == "set" + " " + rest;
    assert !HasSuffix(rest, ";") by {
      assert rest[|rest| - 1] == text[|text| - 1];
      assert text[|text| - 1..] == [text[|text| - 1]];
    }
    SplitCommand("set", rest);
  }

  lemma AddressableIsNamed(key: string, text: string)
    requires Addressable(key) && text != [] && Tight(text)
    ensures SetArgs(Trim(key + " " + text)) == Some((key, text))
  {
    var rest := key + " " + text;
    assert rest[0] == key[0] && rest[|rest| - 1] == text[|text| - 1];
    TrimIsTight(rest);
    assert rest == key + [' '] + text;
    IndexAfter(key, ' ', text);
    assert rest[..|key|] == key && rest[|key|..] == [' '] + text;
    TrimIsTight(key);
    TrimLeading(' ', text);
    TrimIsTight(text);
  }

  /**
   A `set` of an encoded value names exactly the key it was written with if and only if that key is
   addressable, and then its value text too.
   */
  lemma SetNamesKey(key: string, value: seq<Byte>)
    requires value != []
    ensures var text := Encode(STD, value);
            && Split(SetQuery(key, text)).0 == "set"
            && (Addressable(key) <==> SetFor(key, text).Some? && SetFor(key, text).value.0 == key)
            && (Addressable(key) ==> SetFor(key, text) == Some((key, text)))
  {
    var text := Encode(STD, value);
    EncodedIsWord(value);
    SplitSet(key, text);
    if Addressable(key) {
      AddressableIsNamed(key, text);
    } else {
      KeyOfSet(key, text);
    }
  }

  /** Whatever was written, the key that `set` finds is addressable. */
  lemma KeyOfSet(key: string, text: string)
    ensures var args := Trim(key + " " + text);
            SetArgs(args).Some? ==> Addressable(SetArgs(args).value.0)
  {
    var args := Trim(key + " " + text);
    TrimIsTight(key + " " + text);
    if i: nat :| IndexOf(args, ' ') == Some(i) {
      FirstWordAddressable(args, i);
    }
  }

  lemma FirstWordAddressable(args: string, i: nat)
    requires Tight(args) && IndexOf(args, ' ') == Some(i)
    ensures Addressable(Trim(args[..i]))
  {
    assert IsSpace(' ');
    assert i > 0;
    var word := args[..i];
    assert word[0] == args[0];
    TrimIsTight(word);
    TrimLeftShape(word);
    TrimRightShape(TrimLeft(word));
    assert TrimLeft(word) == word;
    NonSpaceStays(word);
    assert forall c :: c in Trim(word) ==> c in word;
  }

  lemma {:induction false} NonSpaceStays(s: string)
    requires s != [] && !IsSpace(s[0])
    ensures TrimRight(s) != []
  {
    if IsSpace(s[|s| - 1]) {
      NonSpaceStays(s[..|s| - 1]);
    }
  }

  // ----- Dump and replay

  /** The `set` query for a line printed by `dump`: the key ends before the first blank's comma. */
  function Replay(line: string): string {
    match IndexOf(line, ' ')
    case Some(i) => if i > 0 then SetQuery(line[..i - 1], line[i + 1..]) else line
    case None => line
  }

  lemma ReplayOfLine(key: string, value: seq<Byte>)
    requires ' ' !in key
    ensures Replay(DumpLine(key, value)) == SetQuery(key, Encode(STD, value))
  {
    var text := Encode(STD, value);
    assert DumpLine(key, value) == (key + ",") + [' '] + text;
    IndexAfter(key + ",", ' ', text);
    assert DumpLine(key, value)[..|key|] == key && DumpLine(key, value)[|key| + 2..] == text;
  }

  lemma SetIsAsked(key: string, value: seq<Byte>)
    requires Addressable(key) && value != []
    ensures var query := SetQuery(key, Encode(STD, value));
            Asked(query) == SetKey && Assignment(Args(query)) == Some((key, value))
  {
    CommandWords();
    SetNamesKey(key, value);
    RoundTrip(STD, value);
  }

  lemma SetWrites(env: Env, stores: Stores, name: string, key: string, value: seq<Byte>)
    requires name in stores && Addressable(key) && value != []
    ensures Execute(env, stores, name, SetQuery(key, Encode(STD, value)))
         == Outcome(stores[name := stores[name][key := value]], ["OK"], false)
  {
    SetIsAsked(key, value);
  }

  /** Replaying one dumped line writes exactly the entry it was dumped from. */
  lemma ReplayWrites(env: Env, stores: Stores, name: string, key: string, value: seq<Byte>)
    requires name in stores && Addressable(key) && value != []
    ensures Execute(env, stores, name, Replay(DumpLine(key, value)))
         == Outcome(stores[name := stores[name][key := value]], ["OK"], false)
  {
    ReplayOfLine(key, value);
    SetWrites(env, stores, name, key, value);
  }

  function Replayed(env: Env, stores: Stores, name: string, line: string): Option<Stores> {
    var out := Execute(env, stores, name, Replay(line));
    if out.failed then None else Some(out.stores)
  }

  /** The store after replaying lines in order, provided that none fails. */
  function ReplayAll(env: Env, stores: Stores, name: string, lines: seq<string>): Option<Stores>
    decreases |lines|
  {
    if lines == [] then Some(stores)
    else match Replayed(env, stores, name, lines[0])
      case None => None
      case Some(next) => ReplayAll(env, next, name, lines[1..])
  }

  /** The entries of `s` for the listed keys. */
  function Pick(order: seq<string>, s: Store): Store {
    map key | key in order && key in s :: s[key]
  }

  lemma PickMore(order: seq<string>, s: Store, t: Store)
    requires order != [] && order[0] in s
    ensures t[order[0] := s[order[0]]] + Pick(order[1..], s) == t + Pick(order, s)
  {
    assert forall key :: key in order <==> key == order[0] || key in order[1..];
  }

  lemma {:induction false} ReplayRebuilds(env: Env, s: Store, t: Store, name: string, order: seq<string>)
    requires forall key :: key in order ==> key in s && Addressable(key) && s[key] != []
    ensures ReplayAll(env, map[name := t], name, DumpLines(order, s)) == Some(map[name := t + Pick(order, s)])
    decreases |order|
  {
    if order == [] {
      assert t + Pick(order, s) == t;
    } else {
      var key := order[0];
      assert key in order;
      ReplayRebuilds(env, s, t[key := s[key]], name, order[1..]);
      PickMore(order, s, t);
      ReplayFirst(env, s, t, name, order);
    }
  }

  lemma ReplayFirst(env: Env, s: Store, t: Store, name: string, order: seq<string>)
    requires order != [] && order[0] in s && Addressable(order[0]) && s[order[0]] != []
    ensures ReplayAll(env, map[name := t], name, DumpLines(order, s))
         == ReplayAll(env, map[name := t[order[0] := s[order[0]]]], name, DumpLines(order[1..], s))
  {
    var lines := DumpLines(order, s);
    var line := DumpLine(order[0], s[order[0]]);
    assert lines[0] == line && lines[1..] == DumpLines(order[1..], s);
    ReplayOne(env, t, name, order[0], s[order[0]]);
    assert Replayed(env, map[name := t], name, lines[0]) == Some(map[name := t[order[0] := s[order[0]]]]);
  }

  lemma ReplayOne(env: Env, t: Store, name: string, key: string, value: seq<Byte>)
    requires Addressable(key) && value != []
    ensures Replayed(env, map[name := t], name, DumpLine(key, value)) == Some(map[name := t[key := value]])
  {
    ReplayWrites(env, map[name := t], name, key, value);
    assert map[name := t][name := t[key := value]] == map[name := t[key := value]];
  }

  lemma DumpIsAsked(prefix: string)
    ensures Asked("dump " + prefix) == Dump && Args("dump " + prefix) == Argument(prefix)
  {
    CommandWords();
    SplitCommand("dump", prefix);
    assert "dump " + prefix == "dump" + " " + prefix;
  }

  /** A store that queries can have written. */
  ghost predicate Writable(s: Store) { forall key :: key in s ==> Addressable(key) && s[key] != [] }

  lemma SetWritesWritable(args: string)
    requires Tight(args) && SetArgs(args).Some?
    ensures Addressable(SetArgs(args).value.0)
    ensures Decode(STD, SetArgs(args).value.1) != Some([])
  {
    var i := IndexOf(args, ' ').value;
    FirstWordAddressable(args, i);
    var tail := args[i..];
    assert tail[|tail| - 1] == args[|args| - 1];
    LastStays(tail);
    TrimIsTight(tail);
    DecodesToSomething(Trim(tail));
  }

  lemma LastStays(s: string)
    requires s != [] && !IsSpace(s[|s| - 1])
    ensures Trim(s) != []
  {
    LastStaysLeft(s);
    TrimLeftShape(s);
    NonSpaceStays(TrimLeft(s));
  }

  lemma {:induction false} LastStaysLeft(s: string)
    requires s != [] && !IsSpace(s[|s| - 1])
    ensures TrimLeft(s) != []
  {
    if IsSpace(s[0]) {
      LastStaysLeft(s[1..]);
    }
  }

  lemma DecodesToSomething(text: string)
    requires text != [] && !IsSpace(text[0])
    ensures Decode(STD, text) != Some([])
  {
    assert WithoutBreaks(text) != [];
  }

  lemma SplitIsTight(query: string)
    ensures Tight(Split(query).1)
  {
    var q := WithoutSemicolon(query);
    match IndexOf(q, ' ')
    case None => TrimIsTight(q[|q|..]);
    case Some(i) => TrimIsTight(q[i..]);
  }

  /** No query, whatever its text, writes a key it could not name or an empty value. */
  lemma QueriesKeepWritable(env: Env, stores: Stores, name: string, query: string)
    requires name in stores && Writable(stores[name])
    ensures var out := Execute(env, stores, name, query).stores; name in out && Writable(out[name])
  {
    SplitIsTight(query);
    CommandsKeepWritable(env, stores, name, CommandOf(Split(query).0), Split(query).1);
  }

  lemma CommandsKeepWritable(env: Env, stores: Stores, name: string, command: Command, args: string)
    requires name in stores && Writable(stores[name]) && Tight(args)
    ensures var out := Perform(env, stores, name, command, args).stores; name in out && Writable(out[name])
  {
    if SetArgs(args).Some? {
      SetWritesWritable(args);
    }
  }

  lemma {:induction false} ReplayKeepsWritable(env: Env, stores: Stores, name: string, lines: seq<string>)
    requires name in stores && Writable(stores[name])
    ensures var end := ReplayAll(env, stores, name, lines);
            end.Some? ==> name in end.value && Writable(end.value[name])
    decreases |lines|
  {
    if lines != [] {
      QueriesKeepWritable(env, stores, name, Replay(lines[0]));
      if Replayed(env, stores, name, lines[0]).Some? {
        ReplayKeepsWritable(env, Replayed(env, stores, name, lines[0]).value, name, lines[1..]);
      }
    }
  }

  lemma ReplayOrder(env: Env, s: Store, order: seq<string>, target: string)
    requires forall key :: key in order ==> key in s
    ensures ReplayAll(env, map[target := map[]], target, DumpLines(order, s)) == Some(map[target := Pick(order, s)])
            <==> Writable(Pick(order, s))
  {
    ReplayKeepsWritable(env, map[target := map[]], target, DumpLines(order, s));
    if Writable(Pick(order, s)) {
      forall key | key in order ensures Addressable(key) && s[key] != [] {
        assert key in Pick(order, s);
      }
      ReplayRebuilds(env, s, map[], target, order);
      assert map[] + Pick(order, s) == Pick(order, s);
    }
  }

  /**
   Dump and replay.  The `set` queries read off the lines of `dump prefix` rebuild, from an empty
   store, exactly the entries under the prefix that `dump` reads if and only if each of their keys is
   addressable and each of their values non-empty; and it reads the prefix it was given if and only if
   that has no space at an end and no final ';'.
   */
  lemma DumpReplay(env: Env, stores: Stores, name: string, prefix: string, target: string)
    requires Lists(env) && name in stores
    ensures var dump := Execute(env, stores, name, "dump " + prefix);
            var found := Under(stores[name], Args("dump " + prefix));
            && !dump.failed && dump.stores == stores
            && (ReplayAll(env, map[target := map[]], target, dump.replies) == Some(map[target := found])
                <==> Writable(found))
    ensures Args("dump " + prefix) == prefix <==> Tight(prefix) && !HasSuffix(prefix, ";")
  {
    DumpIsAsked(prefix);
    ArgumentExactly(prefix);
    var found := Under(stores[name], Argument(prefix));
    var order := env.listing(found.Keys);
    assert Enumerates(order, found.Keys);
    assert Pick(order, stores[name]) == found;
    ReplayOrder(env, stores[name], order, target);
  }

  lemma GetIsAsked(key: string)
    ensures Asked("get " + key) == GetKey && Args("get " + key) == Argument(key)
  {
    CommandWords();
    SplitCommand("get", key);
    assert "get " + key == "get" + " " + key;
  }

  /**
   `get` answers with the Base64 of the key it reads, or of nothing when there is no such key; and
   that is the key it was given if and only if the key has no space at an end and no final ';'.
   */
  lemma GetReads(env: Env, stores: Stores, name: string, key: string)
    requires name in stores
    ensures Execute(env, stores, name, "get " + key)
         == Outcome(stores, [Encode(STD, Get(stores[name], Args("get " + key)))], false)
    ensures Args("get " + key) == key <==> Tight(key) && !HasSuffix(key, ";")
  {
    GetIsAsked(key);
    ArgumentExactly(key);
  }

  /** After the replay, `get` answers with the same Base64 for keys that do not end in ';'. */
  lemma GetAfterReplay(env: Env, stores: Stores, name: string, prefix: string, target: string, key: string)
    requires name in stores && key in Under(stores[name], prefix) && Addressable(key) && !HasSuffix(key, ";")
    ensures var rebuilt := map[target := Under(stores[name], prefix)];
            && Execute(env, rebuilt, target, "get " + key).replies == [Encode(STD, stores[name][key])]
            && Execute(env, stores, name, "get " + key).replies == [Encode(STD, stores[name][key])]
  {
    GetReads(env, map[target := Under(stores[name], prefix)], target, key);
    GetReads(env, stores, name, key);
  }

  // ----- What queries mean to each other

  /**
   A query changes at most the one store it addresses, and only by `set` or `rm`; a failed query
   changes nothing and says nothing; and it fails exactly without the store, for an unknown command,
   or for a `set` without a Base64 value.
   */
  lemma QueriesAreConfined(env: Env, stores: Stores, name: string, query: string)
    ensures var out := Execute(env, stores, name, query);
            && out.stores.Keys == stores.Keys
            && (forall other :: other in stores && other != name ==> out.stores[other] == stores[other])
            && (!Asked(query).SetKey? && !Asked(query).Remove? ==> out.stores == stores)
            && (out.failed ==> out.stores == stores && out.replies == [])
            && (out.failed <==>
                  name !in stores || Asked(query).Unknown? || (Asked(query).SetKey? && Assignment(Args(query)).None?))
  {
    if name in stores {
      CommandsAreConfined(env, stores, name, Asked(query), Args(query));
    }
  }

  lemma CommandsAreConfined(env: Env, stores: Stores, name: string, command: Command, args: string)
    requires name in stores
    ensures var out := Perform(env, stores, name, command, args);
            && (out.stores == stores || out.stores == stores[name := out.stores[name]])
            && (!command.SetKey? && !command.Remove? ==> out.stores == stores)
            && (out.failed ==> out.stores == stores && out.replies == [])
            && (out.failed <==> command.Unknown? || (command.SetKey? && Assignment(args).None?))
  {
  }

  lemma ReadAfterWrite(env: Env, stores: Stores, name: string, write: string, read: string)
    requires name in stores && Asked(write).SetKey? && Assignment(Args(write)).Some? && Asked(read).GetKey?
    ensures var (key, value) := Assignment(Args(write)).value;
            var out := Execute(env, stores, name, write);
            && !out.failed && out.replies == ["OK"]
            && Execute(env, out.stores, name, read).replies
               == if Args(read) == key then [Encode(STD, value)] else Execute(env, stores, name, read).replies
  {
  }

  lemma ReadAfterRemove(env: Env, stores: Stores, name: string, remove: string, read: string)
    requires name in stores && Asked(remove).Remove? && Asked(read).GetKey?
    ensures var out := Execute(env, stores, name, remove);
            && !out.failed && out.replies == ["OK"]
            && Execute(env, out.stores, name, read).replies
               == if Args(read) == Args(remove) then [""] else Execute(env, stores, name, read).replies
  {
  }

  lemma ScannedKeys(env: Env, stores: Stores, name: string, query: string)
    requires Lists(env) && name in stores && Asked(query).Scan?
    ensures var out := Execute(env, stores, name, query);
            !out.failed && out.stores == stores && Enumerates(out.replies, KeysUnder(stores[name], Args(query)))
  {
    assert Under(stores[name], Args(query)).Keys == KeysUnder(stores[name], Args(query));
  }

  lemma FoundKeys(env: Env, stores: Stores, name: string, query: string)
    requires Lists(env) && name in stores && Asked(query).Search?
    ensures var out := Execute(env, stores, name, query);
            && !out.failed && out.stores == stores
            && Enumerates(out.replies, KeysMatching(env, stores[name], Args(query)))
  {
    var s, order := stores[name], env.listing(stores[name].Keys);
    assert Enumerates(order, s.Keys);
    GlobbedEnumerates(env, order, Args(query));
    assert (set key | key in order && env.glob(Args(query), key)) == KeysMatching(env, s, Args(query));
  }

  lemma ScanIsAsked(text: string)
    ensures Asked("scan " + text) == Scan && Args("scan " + text) == Argument(text)
  {
    CommandWords();
    SplitCommand("scan", text);
    assert "scan " + text == "scan" + " " + text;
  }

  lemma SearchIsAsked(text: string)
    ensures Asked("search " + text) == Search && Args("search " + text) == Argument(text)
  {
    CommandWords();
    SplitCommand("search", text);
    assert "search " + text == "search" + " " + text;
  }

  lemma RemoveIsAsked(text: string)
    ensures Asked("rm " + text) == Remove && Args("rm " + text) == Argument(text)
  {
    CommandWords();
    SplitCommand("rm", text);
    assert "rm " + text == "rm" + " " + text;
  }

  /** `rm key` removes the key that it reads, and nothing else. */
  lemma RemoveRemoves(env: Env, stores: Stores, name: string, key: string)
    requires name in stores
    ensures Execute(env, stores, name, "rm " + key)
         == Outcome(stores[name := stores[name] - {Argument(key)}], ["OK"], false)
    ensures Argument(key) == key <==> Tight(key) && !HasSuffix(key, ";")
  {
    RemoveIsAsked(key);
    ArgumentExactly(key);
  }

  /** After `set key base64`, `get` answers with that Base64 for that key, and as before for any other. */
  lemma GetAfterSet(env: Env, stores: Stores, name: string, key: string, value: seq<Byte>, text: string)
    requires name in stores && Addressable(key) && value != []
    ensures var out := Execute(env, stores, name, SetQuery(key, Encode(STD, value)));
            && !out.failed && out.replies == ["OK"]
            && Execute(env, out.stores, name, "get " + text).replies
               == if Argument(text) == key then [Encode(STD, value)]
                  else Execute(env, stores, name, "get " + text).replies
  {
    SetIsAsked(key, value);
    GetIsAsked(text);
    ReadAfterWrite(env, stores, name, SetQuery(key, Encode(STD, value)), "get " + text);
  }

  /** After `rm key`, `get` answers with nothing for that key, and as before for any other. */
  lemma GetAfterRemove(env: Env, stores: Stores, name: string, key: string, text: string)
    requires name in stores
    ensures var out := Execute(env, stores, name, "rm " + key);
            && !out.failed && out.replies == ["OK"]
            && Execute(env, out.stores, name, "get " + text).replies
               == if Argument(text) == Argument(key) then [""]
                  else Execute(env, stores, name, "get " + text).replies
  {
    RemoveIsAsked(key);
    GetIsAsked(text);
    ReadAfterRemove(env, stores, name, "rm " + key, "get " + text);
  }

  /** `scan` reports every key under the prefix once, and changes nothing. */
  lemma ScanIsComplete(env: Env, stores: Stores, name: string, prefix: string)
    requires Lists(env) && name in stores
    ensures var out := Execute(env, stores, name, "scan " + prefix);
            && !out.failed && out.stores == stores
            && Enumerates(out.replies, KeysUnder(stores[name], Argument(prefix)))
  {
    ScanIsAsked(prefix);
    ScannedKeys(env, stores, name, "scan " + prefix);
  }

  /** `search` reports every key that matches the pattern once, and changes nothing. */
  lemma SearchIsComplete(env: Env, stores: Stores, name: string, pattern: string)
    requires Lists(env) && name in stores
    ensures var out := Execute(env, stores, name, "search " + pattern);
            && !out.failed && out.stores == stores
            && Enumerates(out.replies, KeysMatching(env, stores[name], Argument(pattern)))
  {
    SearchIsAsked(pattern);
    FoundKeys(env, stores, name, "search " + pattern);
  }

  /** `dump` prints key and Base64 value of each key that `scan` reports, in the same order. */
  lemma DumpFollowsScan(env: Env, stores: Stores, name: string, prefix: string)
    requires name in stores
    ensures var s := stores[name];
            var keys := Execute(env, stores, name, "scan " + prefix).replies;
            var lines := Execute(env, stores, name, "dump " + prefix).replies;
            && |lines| == |keys|
            && forall i :: 0 <= i < |keys| ==> lines[i] == keys[i] + ", " + Encode(STD, Get(s, keys[i]))
  {
    ScanIsAsked(prefix);
    DumpIsAsked(prefix);
    DumpLinesAt(env.listing(Under(stores[name], Argument(prefix)).Keys), stores[name]);
  }

  /** `help` names the commands and `list` the stores, and neither changes anything. */
  lemma HelpAndList(env: Env, stores: Stores, name: string)
    requires name in stores
    ensures Execute(env, stores, name, "help") == Outcome(stores, [HELP], false)
    ensures Execute(env, stores, name, "list") == Outcome(stores, [env.joined], false)
  {
    CommandWords();
    SplitWord("help");
    SplitWord("list");
  }

  predicate IsCommand(word: string) {
    word in ["help", "list", "get", "set", "rm", "dump", "scan", "search"]
  }

  lemma UnknownWord(word: string)
    ensures CommandOf(word) == Unknown <==> !IsCommand(word)
  {
  }

  /** Any other word is refused, whatever follows it. */
  lemma OtherWordsFail(env: Env, stores: Stores, name: string, word: string, text: string)
    requires ' ' !in word && !IsCommand(word)
    ensures Execute(env, stores, name, word + " " + text) == Outcome(stores, [], true)
  {
    SplitCommand(word, text);
    UnknownWord(word);
    assert Asked(word + " " + text) == Unknown;
  }

  lemma SetTextIsAsked(text: string)
    ensures Asked("set " + text) == SetKey && Args("set " + text) == Argument(text)
  {
    CommandWords();
    SplitCommand("set", text);
    assert "set " + text == "set" + " " + text;
  }

  /** A `set` without a value is refused. */
  lemma SetNeedsValue(env: Env, stores: Stores, name: string, key: string)
    requires ' ' !in Argument(key)
    ensures Execute(env, stores, name, "set " + key) == Outcome(stores, [], true)
  {
    SetTextIsAsked(key);
    assert IndexOf(Argument(key), ' ') == None;
  }

  lemma {:induction false} DumpLinesAt(order: seq<string>, s: Store)
    ensures |DumpLines(order, s)| == |order|
    ensures forall i :: 0 <= i < |order| ==> DumpLines(order, s)[i] == DumpLine(order[i], Get(s, order[i]))
  {
    if order != [] {
      DumpLinesAt(order[1..], s);
    }
  }

  lemma {:induction false} GlobbedKeys(env: Env, order: seq<string>, pattern: string)
    ensures forall key :: key in Globbed(env, order, pattern) <==> key in order && env.glob(pattern, key)
  {
    if order != [] {
      GlobbedKeys(env, order[1..], pattern);
      assert forall key :: key in order <==> key == order[0] || key in order[1..];
    }
  }

  lemma {:induction false} GlobbedEnumerates(env: Env, order: seq<string>, pattern: string)
    requires forall i, j :: 0 <= i < j < |order| ==> order[i] != order[j]
    ensures Enumerates(Globbed(env, order, pattern), set key | key in order && env.glob(pattern, key))
  {
    GlobbedKeys(env, order, pattern);
    if order != [] {
      GlobbedEnumerates(env, order[1..], pattern);
      GlobbedKeys(env, order[1..], pattern);
    }
  }
}
