/** The two storage consoles as they act on the stores: the remote `Console` and `LocalConsole`. */
module Console {
  import opened Options
  import opened Text
  import opened Base64
  import opened Query

  /** The stores and the storage selected by `use`. */
  datatype Session = Session(stores: Stores, selected: string)

  const END := 100
  const OK := 200
  const FAILED := 501

  datatype Reply = Reply(status: nat, content: string)

  predicate IsUse(query: string) { HasPrefix(query, "use ") }

  function UseTarget(query: string): string
    requires IsUse(query)
  {
    Trim(query[4..])
  }

  function Selected(st: Session, query: string): Session
    requires IsUse(query)
  {
    if UseTarget(query) in st.stores then st.(selected := UseTarget(query)) else st
  }

  function UseMessage(env: Env, st: Session, query: string): string
    requires IsUse(query)
  {
    if UseTarget(query) in st.stores then "selected storage '" + UseTarget(query) + "'"
    else "error: storage '" + UseTarget(query) + "' not found, available storages '" + env.printed
  }

  function Replies(contents: seq<string>): (rs: seq<Reply>)
    ensures |rs| == |contents| && forall i :: 0 <= i < |rs| ==> rs[i] == Reply(OK, contents[i])
  {
    seq(|contents|, i requires 0 <= i < |contents| => Reply(OK, contents[i]))
  }

  /** All replies precede a single end marker. */
  predicate EndsOnce(rs: seq<Reply>) {
    && |rs| > 0 && rs[|rs| - 1] == Reply(END, "")
    && forall i :: 0 <= i < |rs| - 1 ==> rs[i].status != END
  }

  /** One round of `Console`: the session after a request, and the replies sent for it. */
  function RemoteRound(env: Env, st: Session, query: string): (r: (Session, seq<Reply>))
    ensures EndsOnce(r.1)
  {
    if IsUse(query) then (Selected(st, query), RoundReplies([UseMessage(env, st, query)], false))
    else
      var out := Execute(env, st.stores, st.selected, query);
      (st.(stores := out.stores),
       RoundReplies(out.replies, out.failed))
  }

  function RoundReplies(contents: seq<string>, failed: bool): (rs: seq<Reply>)
    ensures EndsOnce(rs)
  {
    Replies(contents) + (if failed then [Reply(FAILED, "internal error")] else []) + [Reply(END, "")]
  }

  function RemoteRun(env: Env, st: Session, queries: seq<string>): Session
    decreases |queries|
  {
    if queries == [] then st else RemoteRun(env, RemoteRound(env, st, queries[0]).0, queries[1..])
  }

  /** All replies sent for these queries, in order. */
  function RemoteReplies(env: Env, st: Session, queries: seq<string>): seq<Reply>
    decreases |queries|
  {
    if queries == [] then []
    else
      var (next, replies) := RemoteRound(env, st, queries[0]);
      replies + RemoteReplies(env, next, queries[1..])
  }

  /** Serving the next request and then the rest, after `sent`. */
  lemma ServedOne(env: Env, st: Session, sent: seq<Reply>, requests: seq<string>, i: nat)
    requires i < |requests|
    ensures var (next, replies) := RemoteRound(env, st, requests[i]);
            && RemoteRun(env, st, requests[i..]) == RemoteRun(env, next, requests[i + 1..])
            && sent + RemoteReplies(env, st, requests[i..])
               == (sent + replies) + RemoteReplies(env, next, requests[i + 1..])
  {
    var tail, rest := requests[i..], requests[i + 1..];
    assert tail[0] == requests[i] && tail[1..] == rest;
    var (next, replies) := RemoteRound(env, st, requests[i]);
    assert RemoteReplies(env, st, tail) == replies + RemoteReplies(env, next, rest);
    Associates(sent, replies, RemoteReplies(env, next, rest));
  }

  lemma Associates(a: seq<Reply>, b: seq<Reply>, c: seq<Reply>)
    ensures a + (b + c) == (a + b) + c
  {
  }

  function Markers(replies: seq<Reply>): nat {
    if replies == [] then 0 else (if replies[0].status == END then 1 else 0) + Markers(replies[1..])
  }

  lemma {:induction false} MarkersAdd(a: seq<Reply>, b: seq<Reply>)
    ensures Markers(a + b) == Markers(a) + Markers(b)
  {
    if a == [] {
      assert a + b == b;
    } else {
      assert (a + b)[0] == a[0] && (a + b)[1..] == a[1..] + b;
      MarkersAdd(a[1..], b);
    }
  }

  lemma {:induction false} EndsOnceMarkers(rs: seq<Reply>)
    requires EndsOnce(rs)
    ensures Markers(rs) == 1
  {
    if |rs| > 1 {
      assert EndsOnce(rs[1..]);
      EndsOnceMarkers(rs[1..]);
    }
  }

  /** The stream of replies holds as many end markers as queries were answered, the last reply being one. */
  lemma {:induction false} OneMarkerEach(env: Env, st: Session, queries: seq<string>)
    ensures var rs := RemoteReplies(env, st, queries);
            Markers(rs) == |queries| && (queries != [] ==> rs != [] && rs[|rs| - 1].status == END)
    decreases |queries|
  {
    if queries != [] {
      var (next, replies) := RemoteRound(env, st, queries[0]);
      OneMarkerEach(env, next, queries[1..]);
      EndsOnceMarkers(replies);
      MarkersAdd(replies, RemoteReplies(env, next, queries[1..]));
    }
  }

  /** `out` and `err` are what the local console writes to its two writers. */
  datatype Local = Local(session: Session, out: seq<string>, err: seq<string>)

  function LocalRound(env: Env, st: Session, query: string): Local {
    if query == "list" then Local(st, [env.printed], [])
    else if IsUse(query) then
      if UseTarget(query) in st.stores then Local(Selected(st, query), [UseMessage(env, st, query)], [])
      else Local(st, [], [UseMessage(env, st, query)])
    else
      var out := Execute(env, st.stores, st.selected, query);
      Local(st.(stores := out.stores), out.replies, if out.failed then ["error"] else [])
  }

  /** The local console on the lines a user types; an empty line is ignored and "exit" ends it. */
  function LocalRun(env: Env, st: Session, typed: seq<string>): Local
    decreases |typed|
  {
    if typed == [] || typed[0] == "exit" then Local(st, [], [])
    else if typed[0] == "" then LocalRun(env, st, typed[1..])
    else
      var round := LocalRound(env, st, typed[0]);
      After(round, LocalRun(env, round.session, typed[1..]))
  }

  function After(first: Local, rest: Local): Local {
    Local(rest.session, first.out + rest.out, first.err + rest.err)
  }

  /** The queries the remote console's client sends for the lines a user types. */
  function Sent(typed: seq<string>): seq<string> {
    if typed == [] || typed[0] == "exit" then []
    else if typed[0] == "" then Sent(typed[1..])
    else [typed[0]] + Sent(typed[1..])
  }

  lemma ListChangesNothing(env: Env, st: Session)
    ensures RemoteRound(env, st, "list").0 == st
  {
    assert "list"[..|"list"|] == "list";
    assert !IsUse("list") by { assert "list"[0] != "use "[0]; }
    assert Split("list").0 == "list" by { assert ' ' !in "list"; }
    assert CommandOf("list") == List;
  }

  lemma RoundsAgree(env: Env, st: Session, query: string)
    ensures LocalRound(env, st, query).session == RemoteRound(env, st, query).0
  {
    if query == "list" {
      ListChangesNothing(env, st);
    }
  }

  /**
   For every script, the local console and the remote one fed with the same lines end with the same
   store contents and the same selected storage, although only the remote one executes `list`.
   */
  lemma {:induction false} ConsolesAgree(env: Env, st: Session, typed: seq<string>)
    ensures LocalRun(env, st, typed).session == RemoteRun(env, st, Sent(typed))
    decreases |typed|
  {
    if typed == [] || typed[0] == "exit" {
    } else if typed[0] == "" {
      ConsolesAgree(env, st, typed[1..]);
    } else {
      RoundsAgree(env, st, typed[0]);
      var next := LocalRound(env, st, typed[0]).session;
      assert Sent(typed)[1..] == Sent(typed[1..]);
      ConsolesAgree(env, next, typed[1..]);
    }
  }

  // ----- `use` selects

  lemma UseIsRead(text: string)
    ensures IsUse("use " + text) && UseTarget("use " + text) == Trim(text) && "use " + text != "list"
  {
    var query := "use " + text;
    assert query[..4] == "use " && query[4..] == text;
    assert query[0] != "list"[0];
  }

  /** In both consoles `use` selects the storage it names, without spaces around, if that exists. */
  lemma UseSelects(env: Env, st: Session, text: string)
    ensures var after := if Trim(text) in st.stores then Session(st.stores, Trim(text)) else st;
            && RemoteRound(env, st, "use " + text).0 == after
            && LocalRound(env, st, "use " + text).session == after
            && |RemoteRound(env, st, "use " + text).1| == 2
            && |LocalRound(env, st, "use " + text).out| == (if Trim(text) in st.stores then 1 else 0)
            && |LocalRound(env, st, "use " + text).err| == (if Trim(text) in st.stores then 0 else 1)
  {
    UseIsRead(text);
  }

  /** So the next query, if it is not a `use` or `list`, acts on that storage, in both consoles. */
  lemma UsedStorageIsQueried(env: Env, st: Session, name: string, query: string)
    requires Tight(name) && name in st.stores
    requires !IsUse(query) && query != "list" && query != "exit" && query != ""
    ensures var out := Execute(env, st.stores, name, query);
            && RemoteRun(env, st, ["use " + name, query]) == Session(out.stores, name)
            && LocalRun(env, st, ["use " + name, query]).session == Session(out.stores, name)
  {
    var queries := ["use " + name, query];
    TrimIsTight(name);
    UseSelects(env, st, name);
    UseIsTyped(name);
    assert queries[1..] == [query] && [query][1..] == [];
    var used := Session(st.stores, name);
    assert RemoteRun(env, used, [query]) == RemoteRun(env, RemoteRound(env, used, query).0, []);
    assert Sent([query]) == [query] && Sent(queries) == queries by {
      assert Sent([]) == [];
    }
    ConsolesAgree(env, st, queries);
  }

  lemma UseIsTyped(name: string)
    ensures "use " + name != "" && "use " + name != "exit"
  {
    assert ("use " + name)[0] != "exit"[0];
  }

  // ----- What a query writes

  /** The contents of the replies with this status. */
  function Contents(replies: seq<Reply>, status: nat): seq<string> {
    if replies == [] then []
    else (if replies[0].status == status then [replies[0].content] else []) + Contents(replies[1..], status)
  }

  lemma {:induction false} ContentsAdd(a: seq<Reply>, b: seq<Reply>, status: nat)
    ensures Contents(a + b, status) == Contents(a, status) + Contents(b, status)
  {
    if a == [] {
      assert a + b == b;
    } else {
      assert (a + b)[0] == a[0] && (a + b)[1..] == a[1..] + b;
      ContentsAdd(a[1..], b, status);
    }
  }

  lemma {:induction false} ContentsOfReplies(contents: seq<string>, status: nat)
    ensures Contents(Replies(contents), status) == if status == OK then contents else []
  {
    if contents != [] {
      assert Replies(contents)[1..] == Replies(contents[1..]);
      ContentsOfReplies(contents[1..], status);
    }
  }

  lemma ContentsOfOne(reply: Reply, status: nat)
    ensures Contents([reply], status) == if reply.status == status then [reply.content] else []
  {
    assert [reply][1..] == [];
  }

  lemma ContentsOfRound(contents: seq<string>, failed: bool, status: nat)
    ensures Contents(RoundReplies(contents, failed), status)
         == (if status == OK then contents else [])
            + (if failed && status == FAILED then ["internal error"] else [])
            + (if status == END then [""] else [])
  {
    var failure := if failed then [Reply(FAILED, "internal error")] else [];
    ContentsAdd(Replies(contents) + failure, [Reply(END, "")], status);
    ContentsAdd(Replies(contents), failure, status);
    ContentsOfReplies(contents, status);
    ContentsOfOne(Reply(END, ""), status);
    ContentsOfOne(Reply(FAILED, "internal error"), status);
  }

  /**
   For any query but `use`, the remote console sends the contents of the query in order, one 501 if and
   only if the query failed, and then one end marker; it acts on the selected storage.
   */
  lemma QueryReplies(env: Env, st: Session, query: string)
    requires !IsUse(query)
    ensures var out := Execute(env, st.stores, st.selected, query);
            var (after, replies) := RemoteRound(env, st, query);
            && after == Session(out.stores, st.selected)
            && Contents(replies, OK) == out.replies
            && |Contents(replies, FAILED)| == (if out.failed then 1 else 0)
            && |Contents(replies, END)| == 1
            && |replies| == |out.replies| + (if out.failed then 2 else 1)
  {
    var out := Execute(env, st.stores, st.selected, query);
    ContentsOfRound(out.replies, out.failed, OK);
    ContentsOfRound(out.replies, out.failed, FAILED);
    ContentsOfRound(out.replies, out.failed, END);
  }

  lemma ListIsNoUse()
    ensures !IsUse("list")
  {
    assert "list"[..4][0] != "use "[0];
  }

  /** `list` is where they differ: the local console prints the stores without asking the selected one. */
  lemma ListsDiffer(env: Env, st: Session)
    ensures LocalRound(env, st, "list") == Local(st, [env.printed], [])
    ensures st.selected in st.stores ==> Contents(RemoteRound(env, st, "list").1, OK) == [env.joined]
    ensures st.selected !in st.stores ==> Contents(RemoteRound(env, st, "list").1, OK) == []
  {
    ListIsNoUse();
    QueryReplies(env, st, "list");
    if st.selected in st.stores {
      HelpAndList(env, st.stores, st.selected);
    }
  }

  /** For any query but `use` and `list`, the local console writes what the remote one sends. */
  lemma LocalWritesReplies(env: Env, st: Session, query: string)
    requires !IsUse(query) && query != "list"
    ensures var local := LocalRound(env, st, query);
            var replies := RemoteRound(env, st, query).1;
            local.out == Contents(replies, OK) && |local.err| == |Contents(replies, FAILED)|
  {
    QueryReplies(env, st, query);
  }

  /** The service object. */
  class StorageService {
    const env: Env
    var stores: Stores

    constructor (env: Env, stores: Stores)
      ensures this.env == env && this.stores == stores
    {
      this.env := env;
      this.stores := stores;
    }

    method ExecuteQuery(name: string, text: string) returns (replies: seq<string>, failed: bool)
      modifies this`stores
      ensures Outcome(stores, replies, failed) == Execute(env, old(stores), name, text)
    {
      replies, failed := [], false;
      if name !in stores {
        return [], true;
      }
      var query := text;
      if HasSuffix(query, ";") {
        query := query[..|query| - 1];
      }
      var space := IndexOf(query, ' ');
      var cmdEnd := if space.Some? then space.value else |query|;
      var cmd, args := query[..cmdEnd], Trim(query[cmdEnd..]);
      assert query[..|query|] == query;
      assert (cmd, args) == Split(text);
      replies, failed := RunCommand(name, CommandOf(cmd), args);
    }

    method RunCommand(name: string, command: Command, args: string) returns (replies: seq<string>, failed: bool)
      requires name in stores
      modifies this`stores
      ensures Outcome(stores, replies, failed) == Perform(env, old(stores), name, command, args)
    {
      replies, failed := [], false;
      var s := stores[name];
      match command {
        case Help => replies := [HELP];
        case List => replies := [env.joined];
        case GetKey => replies := [Encode(STD, Get(s, args))];
        case SetKey =>
          failed := SetEntry(name, args);
          replies := if failed then [] else ["OK"];
        case Remove =>
          stores := stores[name := s - {args}];
          replies := ["OK"];
        case Dump => replies := PrintEntries(env.listing(Under(s, args).Keys), s);
        case Scan => replies := env.listing(Under(s, args).Keys);
        case Search => replies := MatchKeys(env.listing(s.Keys), args);
        case Unknown => failed := true;
      }
    }

    /** The callback of `dump`, for each entry in the order of the store. */
    method PrintEntries(order: seq<string>, s: Store) returns (lines: seq<string>)
      ensures lines == DumpLines(order, s)
    {
      lines := [];
      for i := 0 to |order|
        invariant |lines| == i
        invariant forall k :: 0 <= k < i ==> lines[k] == DumpLine(order[k], Get(s, order[k]))
      {
        lines := lines + [DumpLine(order[i], Get(s, order[i]))];
      }
      DumpLinesAt(order, s);
    }

    /** The callback of `search`. */
    method MatchKeys(order: seq<string>, pattern: string) returns (keys: seq<string>)
      ensures keys == Globbed(env, order, pattern)
    {
      keys := [];
      for i := 0 to |order|
        invariant keys + Globbed(env, order[i..], pattern) == Globbed(env, order, pattern)
      {
        assert order[i..][1..] == order[i + 1..];
        if env.glob(pattern, order[i]) {
          keys := keys + [order[i]];
        }
      }
    }

    /** The `set` command. */
    method SetEntry(name: string, args: string) returns (failed: bool)
      requires name in stores
      modifies this`stores
      ensures failed <==> Assignment(args).None?
      ensures failed ==> stores == old(stores)
      ensures !failed ==> var (key, value) := Assignment(args).value;
                          stores == old(stores)[name := old(stores)[name][key := value]]
    {
      var keyEnd := IndexOf(args, ' ');
      if keyEnd.None? {
        return true;
      }
      var key, valueText := Trim(args[..keyEnd.value]), Trim(args[keyEnd.value..]);
      var value := Decode(STD, valueText);
      if value.None? {
        return true;
      }
      stores := stores[name := stores[name][key := value.value]];
      return false;
    }

    /** `requests` are the queries received before the stream ends; `sent` are the replies, all delivered. */
    method Serve(requests: seq<string>) returns (defaultStorage: string, sent: seq<Reply>)
      modifies this`stores
      ensures Session(stores, defaultStorage) == RemoteRun(env, Session(old(stores), "config-store"), requests)
      ensures sent == RemoteReplies(env, Session(old(stores), "config-store"), requests)
    {
      defaultStorage, sent := "config-store", [];
      ghost var start := Session(stores, defaultStorage);
      var i := 0;
      while i < |requests|
        invariant 0 <= i <= |requests|
        invariant RemoteRun(env, start, requests) == RemoteRun(env, Session(stores, defaultStorage), requests[i..])
        invariant RemoteReplies(env, start, requests)
               == sent + RemoteReplies(env, Session(stores, defaultStorage), requests[i..])
      {
        ghost var session, before := Session(stores, defaultStorage), sent;
        defaultStorage, sent := ServeOne(defaultStorage, sent, requests[i]);
        ServedOne(env, session, before, requests, i);
        i := i + 1;
      }
    }

    /** One request of the loop. */
    method ServeOne(selected: string, sent: seq<Reply>, query: string)
      returns (defaultStorage: string, sent': seq<Reply>)
      modifies this`stores
      ensures var (st, replies) := RemoteRound(env, Session(old(stores), selected), query);
              Session(stores, defaultStorage) == st && sent' == sent + replies
    {
      defaultStorage, sent' := selected, sent;
      var failed := false;
      if HasPrefix(query, "use ") {
        var newStorage := Trim(query[4..]);
        if newStorage !in stores {
          var message := "error: storage '" + newStorage + "' not found, available storages '" + env.printed;
          sent' := sent' + [Reply(OK, message)];
        } else {
          defaultStorage := newStorage;
          sent' := sent' + [Reply(OK, "selected storage '" + defaultStorage + "'")];
        }
      } else {
        var contents;
        contents, failed := ExecuteQuery(defaultStorage, query);
        sent' := sent' + Replies(contents);
      }
      if failed {
        sent' := sent' + [Reply(FAILED, "internal error")];
      }
      sent' := sent' + [Reply(END, "")];
    }

    method LocalConsole(typed: seq<string>) returns (defaultStorage: string, out: seq<string>, err: seq<string>)
      modifies this`stores
      ensures Local(Session(stores, defaultStorage), out, err)
           == LocalRun(env, Session(old(stores), "config-store"), typed)
    {
      defaultStorage, out, err := "config-store", [], [];
      ghost var start := Session(stores, defaultStorage);
      var i := 0;
      while i < |typed|
        invariant 0 <= i <= |typed|
        invariant LocalRun(env, start, typed)
               == After(Local(Session(stores, defaultStorage), out, err),
                        LocalRun(env, Session(stores, defaultStorage), typed[i..]))
      {
        var query := typed[i];
        ghost var session, rest := Session(stores, defaultStorage), typed[i..];
        assert rest[0] == query && rest[1..] == typed[i + 1..];
        i := i + 1;
        if query == "" {
          continue;
        }
        if query == "exit" {
          break;
        }
        ghost var out0, err0 := out, err;
        if query == "list" {
          out := out + [env.printed];
        } else if HasPrefix(query, "use ") {
          var newStorage := Trim(query[4..]);
          if newStorage in stores {
            defaultStorage := newStorage;
            out := out + ["selected storage '" + newStorage + "'"];
          } else {
            err := err + ["error: storage '" + newStorage + "' not found, available storages '" + env.printed];
          }
        } else {
          var replies, failed := ExecuteQuery(defaultStorage, query);
          out := out + replies;
          if failed {
            err := err + ["error"];
          }
        }
        ghost var round := LocalRound(env, session, query);
        assert Local(Session(stores, defaultStorage), out, err) == After(Local(session, out0, err0), round);
        AfterAssociates(Local(session, out0, err0), round, LocalRun(env, round.session, typed[i..]));
      }
    }
  }

  lemma AfterAssociates(a: Local, b: Local, c: Local)
    ensures After(After(a, b), c) == After(a, After(b, c))
  {
    assert (a.out + b.out) + c.out == a.out + (b.out + c.out);
    assert (a.err + b.err) + c.err == a.err + (b.err + c.err);
  }
}
