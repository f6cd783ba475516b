/** The interactive loop: the menu dispatch of `main` and the handlers it
    calls. Console reads become parameters: the menu line as read (absent at
    end of input), the title `readNonBlankLine` returned and the id `readInt`
    returned. Printed text is replaced by report values. */
module Console {
  import opened Options
  import opened Text
  import opened Tasks
  import opened Store

  datatype Choice = AddTask | RemoveTask | ListTasks | ToggleTask | Exit | Unknown

  /** The `when` over a trimmed menu token. */
  function Select(token: string): Choice
  {
    if token == "1" then AddTask
    else if token == "2" then RemoveTask
    else if token == "3" then ListTasks
    else if token == "4" then ToggleTask
    else if token == "5" || token == "q" || token == "Q" || token == "exit" then Exit
    else Unknown
  }

  /** `when (readLine()?.trim())`: end of input (`None`) matches no branch. */
  function Dispatch(line: Option<string>): Choice
  {
    match line
    case None => Unknown
    case Some(s) => Select(Trim(s))
  }

  /** The canonical menu key of each recognised choice. */
  function MenuKey(c: Choice): string
    requires c != Unknown
  {
    match c
    case AddTask => "1"
    case RemoveTask => "2"
    case ListTasks => "3"
    case ToggleTask => "4"
    case Exit => "5"
  }

  /** Exactly the tokens 5, q, Q and exit leave the loop; exactly 1..4
      select the four actions; every other token is unknown. */
  lemma SelectTokens(token: string)
    ensures Select(token) == Exit <==> token in ["5", "q", "Q", "exit"]
    ensures Select(token) != Unknown <==> token in ["1", "2", "3", "4", "5", "q", "Q", "exit"]
  {
  }

  /** Each menu key selects its own choice. */
  lemma DispatchMenuKey(c: Choice)
    requires c != Unknown
    ensures Dispatch(Some(MenuKey(c))) == c
  {
    TrimIdentity(MenuKey(c));
  }

  /** Surrounding whitespace on the menu line does not matter. */
  lemma DispatchIgnoresPadding(s: string)
    ensures Dispatch(Some(s)) == Dispatch(Some(Trim(s)))
  {
    TrimIdempotent(s);
  }

  /** The match is case-sensitive: only the listed spellings exit. */
  lemma DispatchCaseSensitive()
    ensures Dispatch(Some("EXIT")) == Unknown && Dispatch(Some("Exit")) == Unknown
    ensures Dispatch(None) == Unknown
  {
    TrimIdentity("EXIT");
    TrimIdentity("Exit");
  }

  /** What `readNonBlankLine` guarantees of the line it returns. */
  predicate IsNonBlankLine(s: string)
  {
    s != [] && NoEdgeWhitespace(s)
  }

  datatype RemoveReport = NothingToRemove | Removed(id: int) | RemoveNotFound(id: int)
  datatype ToggleReport = NothingToUpdate | ToggleNotFound(id: int) | NowDone(id: int, done: bool)
  datatype ListReport = NoTasksYet | Listing(lines: seq<string>)

  method HandleAdd(tm: TaskManager, title: string) returns (task: Task)
    requires tm.Valid() && IsNonBlankLine(title)
    modifies tm
    ensures tm.Valid()
    ensures task == Task(old(tm.nextId), title, false) && task.id !in old(tm.issued)
    ensures tm.tasks == old(tm.tasks) + [task] && tm.nextId == old(tm.nextId) + 1
  {
    TrimIdentity(title);
    task := tm.Add(title);
  }

  method HandleRemove(tm: TaskManager, id: int) returns (report: RemoveReport)
    requires tm.Valid()
    modifies tm
    ensures tm.Valid() && tm.nextId == old(tm.nextId)
    ensures tm.tasks == Without(old(tm.tasks), id)
    ensures old(tm.tasks) == [] ==> report == NothingToRemove
    ensures old(tm.tasks) != [] ==>
      report == if HasId(old(tm.tasks), id) then Removed(id) else RemoveNotFound(id)
  {
    var empty := tm.IsEmpty();
    if empty {
      return NothingToRemove;
    }
    var removed := tm.Remove(id);
    report := if removed then Removed(id) else RemoveNotFound(id);
  }

  method HandleList(tm: TaskManager) returns (report: ListReport)
    ensures report == NoTasksYet <==> tm.tasks == []
    ensures report.Listing? ==> |report.lines| == |tm.tasks|
    ensures report.Listing? ==> forall k :: 0 <= k < |tm.tasks| ==> report.lines[k] == Display(tm.tasks[k])
  {
    var all := tm.List();
    if |all| == 0 {
      return NoTasksYet;
    }
    var lines: seq<string> := [];
    for k := 0 to |all|
      invariant |lines| == k
      invariant forall j :: 0 <= j < k ==> lines[j] == Display(all[j])
    {
      lines := lines + [Display(all[k])];
    }
    report := Listing(lines);
  }

  /** Reads the current flag of the first match and writes its negation back. */
  method HandleToggleDone(tm: TaskManager, id: int) returns (report: ToggleReport)
    requires tm.Valid()
    modifies tm
    ensures tm.Valid() && tm.nextId == old(tm.nextId)
    ensures tm.tasks == Toggled(old(tm.tasks), id)
    ensures old(tm.tasks) == [] ==> report == NothingToUpdate
    ensures old(tm.tasks) != [] ==>
      match FirstIndex(old(tm.tasks), id)
      case None => report == ToggleNotFound(id)
      case Some(i) => report == NowDone(id, !old(tm.tasks)[i].done)
  {
    var empty := tm.IsEmpty();
    if empty {
      return NothingToUpdate;
    }
    var all := tm.List();
    var target := FindFirst(all, id);
    match target {
      case None =>
        report := ToggleNotFound(id);
      case Some(i) =>
        var newValue := !all[i].done;
        var found := tm.MarkDone(id, newValue);
        report := NowDone(id, newValue);
    }
  }

  /** One turn of the menu loop; the request carries what the handlers read. */
  datatype Request = Request(menu: Option<string>, title: string, id: int)

  /** The store's list and counter after one request: Add appends a task
      numbered by the counter and advances it, Remove and Toggle change the
      list as `remove` and the toggle rule do, anything else leaves both alone. */
  function Effect(ts: seq<Task>, nextId: int, req: Request): (seq<Task>, int)
  {
    match Dispatch(req.menu)
    case AddTask => (ts + [Task(nextId, req.title, false)], nextId + 1)
    case RemoveTask => (Without(ts, req.id), nextId)
    case ToggleTask => (Toggled(ts, req.id), nextId)
    case _ => (ts, nextId)
  }

  method Step(tm: TaskManager, req: Request) returns (keepGoing: bool)
    requires tm.Valid()
    requires Dispatch(req.menu) == AddTask ==> IsNonBlankLine(req.title)
    modifies tm
    ensures tm.Valid()
    ensures keepGoing <==> Dispatch(req.menu) != Exit
    ensures (tm.tasks, tm.nextId) == Effect(old(tm.tasks), old(tm.nextId), req)
  {
    keepGoing := true;
    match Dispatch(req.menu) {
      case AddTask =>
        var task := HandleAdd(tm, req.title);
      case RemoveTask =>
        var report := HandleRemove(tm, req.id);
      case ListTasks =>
        var report := HandleList(tm);
      case ToggleTask =>
        var report := HandleToggleDone(tm, req.id);
      case Exit =>
        keepGoing := false;
      case Unknown =>
    }
  }

  /** How many of the requests select Add. */
  function AddCount(reqs: seq<Request>): nat
  {
    if reqs == [] then 0
    else AddCount(reqs[..|reqs| - 1]) + if Dispatch(reqs[|reqs| - 1].menu) == AddTask then 1 else 0
  }

  /** The store's list and counter after the requests, applied in order. */
  function Replay(ts: seq<Task>, nextId: int, reqs: seq<Request>): (seq<Task>, int)
  {
    if reqs == [] then (ts, nextId)
    else
      var prev := Replay(ts, nextId, reqs[..|reqs| - 1]);
      Effect(prev.0, prev.1, reqs[|reqs| - 1])
  }

  /** The counter ends advanced by one per Add request. */
  lemma {:induction false} ReplayCountsAdds(ts: seq<Task>, nextId: int, reqs: seq<Request>)
    ensures Replay(ts, nextId, reqs).1 == nextId + AddCount(reqs)
  {
    if reqs != [] {
      ReplayCountsAdds(ts, nextId, reqs[..|reqs| - 1]);
    }
  }

  /** A script of Add requests appends one task per request, in order, with
      consecutive ids starting at the counter, all not done. */
  lemma {:induction false} ReplayOnlyAdds(ts: seq<Task>, nextId: int, reqs: seq<Request>)
    requires forall k :: 0 <= k < |reqs| ==> Dispatch(reqs[k].menu) == AddTask
    ensures |Replay(ts, nextId, reqs).0| == |ts| + |reqs|
    ensures Replay(ts, nextId, reqs).0[..|ts|] == ts
    ensures forall k :: 0 <= k < |reqs| ==>
      Replay(ts, nextId, reqs).0[|ts| + k] == Task(nextId + k, reqs[k].title, false)
  {
    if reqs != [] {
      var init := reqs[..|reqs| - 1];
      ReplayOnlyAdds(ts, nextId, init);
      ReplayCountsAdds(ts, nextId, init);
      AddCountAll(init);
      var prev := Replay(ts, nextId, init);
      assert Replay(ts, nextId, reqs).0 == prev.0 + [Task(nextId + |init|, reqs[|init|].title, false)];
    }
  }

  /** When every request selects Add, each one counts. */
  lemma {:induction false} AddCountAll(reqs: seq<Request>)
    requires forall k :: 0 <= k < |reqs| ==> Dispatch(reqs[k].menu) == AddTask
    ensures AddCount(reqs) == |reqs|
  {
    if reqs != [] {
      AddCountAll(reqs[..|reqs| - 1]);
    }
  }

  /** How far `main` gets through a script: the number of requests it reads
      and whether it left through Exit. */
  datatype Outcome = Outcome(consumed: nat, exited: bool)

  function Session(reqs: seq<Request>): Outcome
  {
    if reqs == [] then Outcome(0, false)
    else if Dispatch(reqs[0].menu) == Exit then Outcome(1, true)
    else
      var rest := Session(reqs[1..]);
      Outcome(rest.consumed + 1, rest.exited)
  }

  /** The loop reads at most the whole script, all of it unless it exits. */
  lemma {:induction false} SessionLength(reqs: seq<Request>)
    ensures Session(reqs).consumed <= |reqs|
    ensures Session(reqs).exited ==> 0 < Session(reqs).consumed
    ensures !Session(reqs).exited ==> Session(reqs).consumed == |reqs|
  {
    if reqs != [] && Dispatch(reqs[0].menu) != Exit {
      SessionLength(reqs[1..]);
    }
  }

  /** The loop leaves at the first Exit request and nowhere else. */
  lemma {:induction false} SessionStopsAtFirstExit(reqs: seq<Request>)
    ensures Session(reqs).exited <==> exists k :: 0 <= k < |reqs| && Dispatch(reqs[k].menu) == Exit
    ensures Session(reqs).exited ==>
      0 < Session(reqs).consumed <= |reqs| && Dispatch(reqs[Session(reqs).consumed - 1].menu) == Exit
    ensures forall k :: 0 <= k < Session(reqs).consumed - 1 && k < |reqs| ==> Dispatch(reqs[k].menu) != Exit
  {
    SessionLength(reqs);
    if reqs != [] {
      var head := Dispatch(reqs[0].menu);
      if head != Exit {
        var tail := reqs[1..];
        SessionStopsAtFirstExit(tail);
        SessionLength(tail);
        var r := Session(tail);
        assert Session(reqs) == Outcome(r.consumed + 1, r.exited);
        if r.exited {
          assert reqs[r.consumed] == tail[r.consumed - 1];
        } else {
          forall k | 0 <= k < |reqs| ensures Dispatch(reqs[k].menu) != Exit {
            if k > 0 { assert reqs[k] == tail[k - 1]; }
          }
        }
        forall k | 0 < k < r.consumed ensures Dispatch(reqs[k].menu) != Exit {
          assert reqs[k] == tail[k - 1];
        }
      }
    }
  }

  /** `main`: runs requests until one selects Exit or the script ends. */
  method Run(tm: TaskManager, reqs: seq<Request>) returns (consumed: nat, exited: bool)
    requires tm.Valid()
    requires forall k :: 0 <= k < |reqs| && Dispatch(reqs[k].menu) == AddTask ==> IsNonBlankLine(reqs[k].title)
    modifies tm
    ensures tm.Valid()
    ensures consumed <= |reqs| && Outcome(consumed, exited) == Session(reqs)
    ensures tm.nextId == old(tm.nextId) + AddCount(reqs[..consumed])
    ensures (tm.tasks, tm.nextId) == Replay(old(tm.tasks), old(tm.nextId), reqs[..consumed])
  {
    consumed, exited := 0, false;
    while consumed < |reqs|
      invariant tm.Valid()
      invariant consumed <= |reqs|
      invariant Session(reqs) ==
        var rest := Session(reqs[consumed..]); Outcome(consumed + rest.consumed, rest.exited)
      invariant tm.nextId == old(tm.nextId) + AddCount(reqs[..consumed])
      invariant (tm.tasks, tm.nextId) == Replay(old(tm.tasks), old(tm.nextId), reqs[..consumed])
    {
      var req := reqs[consumed];
      assert reqs[..consumed + 1][..consumed] == reqs[..consumed];
      assert AddCount(reqs[..consumed + 1]) ==
        AddCount(reqs[..consumed]) + if Dispatch(req.menu) == AddTask then 1 else 0;
      assert reqs[consumed..][1..] == reqs[consumed + 1..];
      var more := Step(tm, req);
      consumed := consumed + 1;
      if !more {
        exited := true;
        return;
      }
    }
  }
}
