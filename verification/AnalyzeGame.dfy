/** How the analysis of a game is split into tasks, a double together with its
    answer (gnubg/analysis.c, lines 914 to 930 and 953 to 998). */
module AnalyzeGame {
  import opened Common
  import opened MatchStates
  import opened Linking

  /** A double in this state is neither a beaver nor a raccoon. */
  predicate IsNormal<E>(ms: MatchState<E>) {
    ms.Kind() == DT_NORMAL
  }

  function KindAt<E>(r: Rules<E>, ms0: MatchState<E>, game: seq<Record>, k: nat): Kind
    requires k < |game|
  {
    if !game[k].Double? then Other
    else if IsNormal(StateAt(r, Analysis, ms0, game, k)) then NormalDouble
    else OtherDouble
  }

  function Kinds<E>(r: Rules<E>, ms0: MatchState<E>, game: seq<Record>): (kinds: seq<Kind>)
    ensures |kinds| == |game| && forall k {:trigger kinds[k]} :: 0 <= k < |game| ==> kinds[k] == KindAt(r, ms0, game, k)
  {
    seq(|game|, k requires 0 <= k < |game| => KindAt(r, ms0, game, k))
  }

  // ----- What should be submitted

  /** One record to be analysed, in the state before it. */
  datatype Job<E> = Job(pmr: nat, ms: MatchState<E>)

  function JobAt<E>(r: Rules<E>, ms0: MatchState<E>, game: seq<Record>, k: nat): Job<E>
    requires k < |game|
  {
    Job(k, StateAt(r, Analysis, ms0, game, k))
  }

  /** The task of a record that is not a double. */
  function TaskAt<E>(r: Rules<E>, ms0: MatchState<E>, game: seq<Record>, k: nat): seq<Job<E>>
    requires k < |game|
  {
    match DoubleBefore(Kinds(r, ms0, game), k)
    case None => [JobAt(r, ms0, game, k)]
    case Some(j) => [JobAt(r, ms0, game, j), JobAt(r, ms0, game, k)]
  }

  /** The tasks of the first k records, in order. */
  function Tasks<E>(r: Rules<E>, ms0: MatchState<E>, game: seq<Record>, k: nat): seq<seq<Job<E>>>
    requires k <= |game|
  {
    if k == 0 then []
    else
      var before := Tasks(r, ms0, game, k - 1);
      if Kinds(r, ms0, game)[k - 1] == Other then before + [TaskAt(r, ms0, game, k - 1)] else before
  }

  // ----- The tasks of the program

  class Task<E> {
    var pmr: nat
    var ms: MatchState<E>
    var pLinkedTask: Task?<E>

    constructor (pmr: nat, ms: MatchState<E>)
      ensures this.pmr == pmr && this.ms == ms && pLinkedTask == null
    {
      this.pmr, this.ms, pLinkedTask := pmr, ms, null;
    }

    function Own(): Job<E>
      reads this
    {
      Job(pmr, ms)
    }

    /** At most one more task is linked. */
    ghost predicate Short()
      reads this, pLinkedTask
    {
      pLinkedTask != null ==> pLinkedTask.pLinkedTask == null
    }

    ghost function Jobs(): seq<Job<E>>
      reads this, pLinkedTask
    {
      if pLinkedTask == null then [Own()] else [Own(), pLinkedTask.Own()]
    }
  }

  /** AnalyseMoveMT: the order in which a task analyses its records. */
  method AnalyseMoveMT<E>(task: Task<E>) returns (analysed: seq<Job<E>>)
    requires task.Short()
    ensures analysed == task.Jobs()
  {
    analysed := [task.Own()];
    var t: Task<E> := task;
    while t.pLinkedTask != null
      invariant t == task || (task.pLinkedTask != null && t == task.pLinkedTask)
      invariant analysed == if t == task then [task.Own()] else task.Jobs()
      decreases if t == task && task.pLinkedTask != task && t.pLinkedTask != null then 1 else 0
    {
      t := t.pLinkedTask;
      analysed := analysed + [t.Own()];
    }
  }

  /** The match state after one more record. */
  method Next<E>(r: Rules<E>, ms: MatchState<E>, pmr: Record) returns (msAnalyse: MatchState<E>)
    requires !pmr.GameInfo?
    ensures msAnalyse == Advance(r, Analysis, ms, pmr)
  {
    msAnalyse := r.fixMatchState(ms, pmr);
    if pmr.fPlayer != msAnalyse.fMove && (pmr.Normal? || pmr.Resign? || pmr.SetDice?) {
      msAnalyse := msAnalyse.(anBoard := msAnalyse.anBoard.Swapped());
      msAnalyse := msAnalyse.(fMove := pmr.fPlayer);
    }
    msAnalyse := r.applyMoveRecord(msAnalyse, pmr);
  }

  /** The queue holds these tasks, and they are made of these objects. */
  ghost predicate Queued<E>(queue: seq<Task<E>>, used: set<Task<E>>, tasks: seq<seq<Job<E>>>)
    reads used
  {
    && |queue| == |tasks|
    && (forall q :: 0 <= q < |queue| ==> queue[q] in used)
    && (forall q :: 0 <= q < |queue| ==>
          && (queue[q].pLinkedTask != null ==> queue[q].pLinkedTask in used && queue[q].pLinkedTask.pLinkedTask == null)
          && tasks[q] == if queue[q].pLinkedTask == null then [queue[q].Own()] else [queue[q].Own(), queue[q].pLinkedTask.Own()])
  }

  /** The double that waits for its answer, and the task kept for that answer. */
  ghost predicate Waiting<E>(pt: Task?<E>, pParentTask: Task?<E>, used: set<Task<E>>, double: Option<Job<E>>)
    reads pt, pParentTask
  {
    match double
    case None => pParentTask == null
    case Some(job) =>
      && pParentTask != null && pt != null && pt != pParentTask && pt !in used && pParentTask !in used
      && pParentTask.pLinkedTask == pt && pt.pLinkedTask == null && pParentTask.Own() == job
  }

  /** The task of record i is filled in. */
  method Fill<E>(pt: Task<E>, pmr: nat, ms: MatchState<E>)
    modifies pt
    ensures pt.Own() == Job(pmr, ms) && pt.pLinkedTask == null
  {
    pt.pLinkedTask := null;
    pt.pmr := pmr;
    pt.ms := ms;
  }

  /** What waits after record k. */
  function WaitingAfter<E>(r: Rules<E>, ms0: MatchState<E>, game: seq<Record>, k: nat): Option<Job<E>>
    requires k <= |game|
  {
    match DoubleBefore(Kinds(r, ms0, game), k)
    case None => None
    case Some(j) => Some(JobAt(r, ms0, game, j))
  }

  /** How one more record changes what is submitted and what waits. */
  lemma OneMore<E>(r: Rules<E>, ms0: MatchState<E>, game: seq<Record>, k: nat)
    requires k < |game|
    ensures var waits, tasks, own := WaitingAfter(r, ms0, game, k), Tasks(r, ms0, game, k), JobAt(r, ms0, game, k);
            if game[k].Double? then
              && Tasks(r, ms0, game, k + 1) == tasks
              && WaitingAfter(r, ms0, game, k + 1) == if IsNormal(own.ms) then Some(own) else waits
            else
              && Tasks(r, ms0, game, k + 1) == tasks + [if waits == None then [own] else [waits.value, own]]
              && WaitingAfter(r, ms0, game, k + 1) == None
  {
  }

  /** A record is a double: it waits when it is a normal one. */
  method OnDouble<E>(pt0: Task<E>, parent0: Task?<E>, last: bool, ms: MatchState<E>, ghost used: set<Task<E>>,
                     ghost double: Option<Job<E>>)
    returns (pt: Task<E>, pParentTask: Task?<E>)
    requires Waiting(pt0, parent0, used, double) && pt0 !in used && pt0.pLinkedTask == null
    modifies pt0
    ensures pt0.Own() == old(pt0.Own())
    ensures pt == pt0 || fresh(pt)
    ensures pParentTask == parent0 || pParentTask == pt0
    ensures Waiting(pt, pParentTask, used, if !last && IsNormal(ms) then Some(pt0.Own()) else double)
  {
    pt, pParentTask := pt0, parent0;
    if !last && IsNormal(ms) {
      pParentTask := pt;
      pt := new Task(0, ms);
      pParentTask.pLinkedTask := pt;
      assert pt !in used;
    }
  }

  /** Any other record: the double that waits is submitted with it. */
  method OnOther<E>(pt0: Task<E>, pParentTask: Task?<E>, queue0: seq<Task<E>>, ghost used0: set<Task<E>>,
                    ghost tasks: seq<seq<Job<E>>>, ghost double: Option<Job<E>>)
    returns (pt: Task<E>, queue: seq<Task<E>>, ghost used: set<Task<E>>)
    requires Queued(queue0, used0, tasks) && Waiting(pt0, pParentTask, used0, double)
    requires pt0 !in used0 && pt0.pLinkedTask == null
    ensures used == used0 + {pt, pt0} && (pt == pt0 || pt == pParentTask)
    ensures Queued(queue, used, tasks + [if double == None then [pt0.Own()] else [double.value, pt0.Own()]])
  {
    pt := pt0;
    if pParentTask != null {
      pt := pParentTask;
    }
    queue := queue0 + [pt];
    used := used0 + {pt, pt0};
  }

  function TasksWith<E>(isDouble: bool, own: Job<E>, tasks: seq<seq<Job<E>>>, double: Option<Job<E>>): seq<seq<Job<E>>> {
    if isDouble then tasks else tasks + [if double == None then [own] else [double.value, own]]
  }

  function WaitsWith<E>(isDouble: bool, last: bool, own: Job<E>, double: Option<Job<E>>): Option<Job<E>> {
    if !isDouble then None else if !last && IsNormal(own.ms) then Some(own) else double
  }

  lemma LoopStep<E>(r: Rules<E>, ms0: MatchState<E>, game: seq<Record>, i: nat, ms: MatchState<E>,
                       tasks: seq<seq<Job<E>>>, double: Option<Job<E>>)
    returns (tasks': seq<seq<Job<E>>>, double': Option<Job<E>>)
    requires i < |game| && ms == StateAt(r, Analysis, ms0, game, i)
    requires tasks == Tasks(r, ms0, game, i) && double == WaitingAfter(r, ms0, game, i)
    ensures tasks' == TasksWith(game[i].Double?, Job(i, ms), tasks, double)
    ensures double' == WaitsWith(game[i].Double?, i + 1 == |game|, Job(i, ms), double)
    ensures tasks' == Tasks(r, ms0, game, i + 1)
    ensures i + 1 < |game| ==> double' == WaitingAfter(r, ms0, game, i + 1)
    ensures Advance(r, Analysis, ms, game[i]) == StateAt(r, Analysis, ms0, game, i + 1)
  {
    OneMore(r, ms0, game, i);
    tasks' := TasksWith(game[i].Double?, Job(i, ms), tasks, double);
    double' := WaitsWith(game[i].Double?, i + 1 == |game|, Job(i, ms), double);
  }

  /** The tasks in use are among these. */
  ghost predicate Among<E>(pt: Task?<E>, pParentTask: Task?<E>, used: set<Task<E>>, made: set<Task<E>>) {
    used <= made && (pParentTask != null ==> pParentTask in made && pt != null && pt in made)
  }

  /** One turn of the loop over the records. */
  method OneRecord<E>(isDouble: bool, last: bool, i: nat, ms: MatchState<E>, pt0: Task?<E>, parent0: Task?<E>,
                      queue0: seq<Task<E>>, ghost used0: set<Task<E>>, ghost tasks: seq<seq<Job<E>>>,
                      ghost double: Option<Job<E>>, ghost made0: set<Task<E>>)
    returns (pt: Task?<E>, pParentTask: Task?<E>, queue: seq<Task<E>>, ghost used: set<Task<E>>, ghost made: set<Task<E>>)
    requires Queued(queue0, used0, tasks) && Waiting(pt0, parent0, used0, double)
    requires Among(pt0, parent0, used0, made0)
    modifies if parent0 == null then {} else {pt0}
    ensures Queued(queue, used, TasksWith(isDouble, Job(i, ms), tasks, double))
    ensures Waiting(pt, pParentTask, used, WaitsWith(isDouble, last, Job(i, ms), double))
    ensures Among(pt, pParentTask, used, made) && made0 <= made && fresh(made - made0)
  {
    pt, pParentTask, queue, used := pt0, parent0, queue0, used0;
    if pParentTask == null {
      pt := new Task(i, ms);
    }
    made := made0 + {pt};
    Fill(pt, i, ms);
    assert Queued(queue, used, tasks);
    assert Waiting(pt, pParentTask, used, double);
    if isDouble {
      pt, pParentTask := OnDouble(pt, pParentTask, last, ms, used, double);
      made := made + {pt};
      assert Queued(queue, used, tasks);
    } else {
      pt, queue, used := OnOther(pt, pParentTask, queue, used, tasks, double);
      pParentTask := null;
    }
  }

  /** AnalyzeGame, after the record that opens the game: the queue in the order of
      submission. */
  method AnalyzeGame<E>(r: Rules<E>, ms0: MatchState<E>, game: seq<Record>) returns (queue: seq<Task<E>>)
    requires NoGameInfo(game)
    ensures forall q :: 0 <= q < |queue| ==> fresh(queue[q]) && queue[q].Short()
    ensures |queue| == |Tasks(r, ms0, game, |game|)|
    ensures forall q :: 0 <= q < |queue| ==> queue[q].Jobs() == Tasks(r, ms0, game, |game|)[q]
  {
    queue := [];
    var msAnalyse := ms0;
    var pt: Task?<E>, pParentTask: Task?<E> := null, null;
    ghost var used: set<Task<E>>, made: set<Task<E>> := {}, {};
    ghost var tasks: seq<seq<Job<E>>>, double: Option<Job<E>> := [], None;
    var i := 0;
    while i < |game|
      invariant 0 <= i <= |game| && msAnalyse == StateAt(r, Analysis, ms0, game, i)
      invariant tasks == Tasks(r, ms0, game, i)
      invariant i < |game| ==> double == WaitingAfter(r, ms0, game, i)
      invariant Among(pt, pParentTask, used, made) && fresh(made)
      invariant Queued(queue, used, tasks) && Waiting(pt, pParentTask, used, double)
    {
      pt, pParentTask, queue, used, made := OneRecord(game[i].Double?, i + 1 == |game|, i, msAnalyse,
                                                      pt, pParentTask, queue, used, tasks, double, made);
      tasks, double := LoopStep(r, ms0, game, i, msAnalyse, tasks, double);
      msAnalyse := Next(r, msAnalyse, game[i]);
      i := i + 1;
    }
  }

  // ----- Which records are submitted

  function Records<E>(jobs: seq<Job<E>>): (s: seq<nat>)
    ensures |s| == |jobs| && forall k :: 0 <= k < |jobs| ==> s[k] == jobs[k].pmr
  {
    if jobs == [] then [] else [jobs[0].pmr] + Records(jobs[1..])
  }

  /** The records of the tasks, in the order of their analysis. */
  function Analysed<E>(tasks: seq<seq<Job<E>>>): seq<nat> {
    if tasks == [] then [] else Analysed(tasks[..|tasks| - 1]) + Records(tasks[|tasks| - 1])
  }

  lemma TaskRecords<E>(r: Rules<E>, ms0: MatchState<E>, game: seq<Record>, k: nat)
    requires k < |game|
    ensures Records(TaskAt(r, ms0, game, k)) == Pair(Kinds(r, ms0, game), k)
  {
  }

  /** The tasks analyse the records in the order that depends on their kinds
      only. */
  lemma {:induction false} TasksInOrder<E>(r: Rules<E>, ms0: MatchState<E>, game: seq<Record>, k: nat)
    requires k <= |game|
    ensures Analysed(Tasks(r, ms0, game, k)) == Order(Kinds(r, ms0, game), k)
  {
    if k > 0 {
      TasksInOrder(r, ms0, game, k - 1);
      TasksNext(r, ms0, game, k - 1);
    }
  }

  lemma TasksNext<E>(r: Rules<E>, ms0: MatchState<E>, game: seq<Record>, k: nat)
    requires k < |game|
    ensures Analysed(Tasks(r, ms0, game, k + 1))
         == Analysed(Tasks(r, ms0, game, k)) + (if Kinds(r, ms0, game)[k] == Other then Pair(Kinds(r, ms0, game), k) else [])
  {
    if Kinds(r, ms0, game)[k] == Other {
      AnalysedSnoc(Tasks(r, ms0, game, k), TaskAt(r, ms0, game, k));
      TaskRecords(r, ms0, game, k);
    }
  }

  lemma AnalysedSnoc<E>(tasks: seq<seq<Job<E>>>, task: seq<Job<E>>)
    ensures Analysed(tasks + [task]) == Analysed(tasks) + Records(task)
  {
    assert (tasks + [task])[..|tasks|] == tasks;
  }

  // ----- Normal doubles in a row

  /** A double that turns the cube stays pending while there are only doubles. */
  lemma {:induction false} StaysPending<E>(r: Rules<E>, o: Operations<E>, ms0: MatchState<E>, game: seq<Record>,
                                           i: nat, k: nat)
    requires Engine(r, o) && i < k <= |game| && forall l :: i <= l < k ==> game[l].Double?
    requires StateAt(r, Analysis, ms0, game, i).nCube < MAX_CUBE
    ensures StateAt(r, Analysis, ms0, game, k).fDoubled
    decreases k - i
  {
    if k > i + 1 {
      StaysPending(r, o, ms0, game, i, k - 1);
    }
    assert game[k - 1].Double?;
    DoublePends(r, o, StateAt(r, Analysis, ms0, game, k - 1), game[k - 1]);
  }

  lemma DoublePends<E>(r: Rules<E>, o: Operations<E>, ms: MatchState<E>, pmr: Record)
    requires Engine(r, o) && pmr.Double?
    ensures Advance(r, Analysis, ms, pmr).fDoubled <==> ms.fDoubled || ms.nCube < MAX_CUBE
  {
    EngineIs(r, o);
  }

  /** Below the limit of the cube there is another kind of record between any two
      normal doubles. */
  lemma BelowTheLimit<E>(r: Rules<E>, o: Operations<E>, ms0: MatchState<E>, game: seq<Record>)
    requires Engine(r, o)
    requires forall k {:trigger KindAt(r, ms0, game, k)} :: 0 <= k < |game| && KindAt(r, ms0, game, k) == NormalDouble
               ==> StateAt(r, Analysis, ms0, game, k).nCube < MAX_CUBE
    ensures Separated(Kinds(r, ms0, game))
  {
    var kinds := Kinds(r, ms0, game);
    forall i, j | 0 <= i < j < |kinds| && kinds[i] == NormalDouble && kinds[j] == NormalDouble
      ensures exists k :: i < k < j && kinds[k] == Other
    {
      if forall k :: i < k < j ==> kinds[k] != Other {
        NotInARow(r, o, ms0, game, i, j);
        assert false;
      }
    }
  }

  lemma NotInARow<E>(r: Rules<E>, o: Operations<E>, ms0: MatchState<E>, game: seq<Record>, i: nat, j: nat)
    requires Engine(r, o) && i < j < |game| && KindAt(r, ms0, game, i) == NormalDouble
    requires StateAt(r, Analysis, ms0, game, i).nCube < MAX_CUBE
    requires forall k :: i < k < j ==> Kinds(r, ms0, game)[k] != Other
    ensures KindAt(r, ms0, game, j) != NormalDouble
  {
    forall l | i <= l < j
      ensures game[l].Double?
    {
      assert Kinds(r, ms0, game)[l] == KindAt(r, ms0, game, l);
    }
    StaysPending(r, o, ms0, game, i, j);
  }

  /** So below it only beavers, raccoons and doubles that nothing but doubles
      follows are left out. */
  lemma LeftOut<E>(r: Rules<E>, o: Operations<E>, ms0: MatchState<E>, game: seq<Record>, j: nat)
    requires Engine(r, o) && j < |game|
    requires forall k {:trigger KindAt(r, ms0, game, k)} :: 0 <= k < |game| && KindAt(r, ms0, game, k) == NormalDouble
               ==> StateAt(r, Analysis, ms0, game, k).nCube < MAX_CUBE
    ensures j in Order(Kinds(r, ms0, game), |game|) <==>
            || !game[j].Double?
            || (IsNormal(StateAt(r, Analysis, ms0, game, j)) && exists m :: j < m < |game| && !game[m].Double?)
  {
    var kinds := Kinds(r, ms0, game);
    BelowTheLimit(r, o, ms0, game);
    UnlessLast(kinds, j);
    forall m | 0 <= m < |game|
      ensures kinds[m] == Other <==> !game[m].Double?
    {
    }
  }

  /** A double right after a normal one is normal exactly when the cube had reached
      its limit, and then the earlier of the two is not analysed. */
  lemma AtTheLimit<E>(r: Rules<E>, o: Operations<E>, ms0: MatchState<E>, game: seq<Record>, j: nat)
    requires Engine(r, o) && j + 1 < |game| && game[j + 1].Double? && KindAt(r, ms0, game, j) == NormalDouble
    ensures KindAt(r, ms0, game, j + 1) == NormalDouble <==> StateAt(r, Analysis, ms0, game, j).nCube >= MAX_CUBE
    ensures StateAt(r, Analysis, ms0, game, j).nCube >= MAX_CUBE ==> j !in Order(Kinds(r, ms0, game), |game|)
  {
    var ms, kinds := StateAt(r, Analysis, ms0, game, j), Kinds(r, ms0, game);
    DoublePends(r, o, ms, game[j]);
    if ms.nCube >= MAX_CUBE {
      assert kinds[j] == NormalDouble && kinds[j + 1] == KindAt(r, ms0, game, j + 1);
      EarlierDoubleLost(kinds, j);
    }
  }

  /** Such a list: a cube at its limit, and two doubles. */
  lemma LostAtTheLimit<E>(r: Rules<E>, o: Operations<E>, ms0: MatchState<E>, game: seq<Record>)
    requires Engine(r, o) && !ms0.fDoubled && ms0.nCube >= MAX_CUBE && |game| > 1 && game[0].Double? && game[1].Double?
    ensures 0 !in Order(Kinds(r, ms0, game), |game|)
  {
    AtTheLimit(r, o, ms0, game, 0);
  }
}
