/** The text of a move (gnubg/drawboard.c, lines 495 to 512 and 682 to 712). */
module MoveText {
  import opened Moves
  import opened MoveChains

  function Digit(n: nat): char
    requires n <= 9
  {
    '0' + n as char
  }

  /** A point as the player sees it. */
  function Point(n: int): (s: string)
    requires OFF <= n <= BAR
    ensures 1 <= |s| <= if n == OFF || n == BAR then 3 else 2
  {
    if n == 0 then "off"
    else if n == 25 then "bar"
    else if n > 9 then [Digit(n / 10), Digit(n % 10)]
    else [Digit(n % 10)]
  }

  /** The intermediate points of a chain from its point j on; all of them hit. */
  function Middle(c: Chain, j: nat): string
    requires ValidChain(c) && 1 <= j <= |c| - 1
    decreases |c| - j
  {
    if j == |c| - 1 then "" else "/" + Point(c[j]) + "*" + Middle(c, j + 1)
  }

  ghost function MidsFrom(c: Chain, j: nat): set<int> {
    set k | j <= k < |c| - 1 :: c[k]
  }

  ghost function Mids(c: Chain): set<int> {
    MidsFrom(c, 1)
  }

  /** The end of the chain gets a star: it hits, and it has no star yet. */
  ghost predicate EndStarred(opp: Opponent, c: Chain, fl: set<int>)
    requires c != []
  {
    Occupied(opp, Last(c)) && Last(c) !in fl + Mids(c)
  }

  /** The points with a star after a chain has been printed. */
  ghost function FlagsAfter(opp: Opponent, c: Chain, fl: set<int>): set<int>
    requires c != []
  {
    fl + Mids(c) + if EndStarred(opp, c, fl) then {Last(c)} else {}
  }

  function CountText(count: nat): string
    requires count <= 9
  {
    if count > 1 then ['(', Digit(count), ')'] else ""
  }

  ghost predicate ValidGroup(g: Group) {
    ValidChain(g.chain) && 1 <= g.count <= 4
  }

  ghost function GroupText(opp: Opponent, g: Group, fl: set<int>): string
    requires ValidGroup(g)
  {
    Point(g.chain[0]) + Middle(g.chain, 1) + "/" + Point(Last(g.chain)) +
    (if EndStarred(opp, g.chain, fl) then "*" else "") + CountText(g.count)
  }

  ghost predicate ValidGroups(gs: seq<Group>) {
    forall k :: 0 <= k < |gs| ==> ValidGroup(gs[k])
  }

  /** The groups in order, separated by spaces. */
  ghost function Text(opp: Opponent, gs: seq<Group>, fl: set<int>): string
    requires ValidGroups(gs)
  {
    if gs == [] then ""
    else
      GroupText(opp, gs[0], fl) + (if |gs| > 1 then " " else "") +
      Text(opp, gs[1..], FlagsAfter(opp, gs[0].chain, fl))
  }

  /** The slots once the steps of a move have been sorted and joined. */
  ghost function SlotsOf(opp: Opponent, m: seq<Step>): Slots
    requires |m| <= 4
  {
    Joined(opp, Singles(Sort(m)))
  }

  /** The groups that are printed for a move. */
  ghost function GroupsOf(opp: Opponent, m: seq<Step>): seq<Group>
    requires |m| <= 4
  {
    Groups(SlotsOf(opp, m))
  }

  lemma SlotsOfMove(opp: Opponent, m: seq<Step>)
    requires ValidMove(m)
    ensures Linked(SlotsOf(opp, m), 4, 4)
    ensures SameEffect(opp, Paths(SlotsOf(opp, m)), m)
    ensures |Paths(SlotsOf(opp, m))| <= |m|
  {
    SortSorts(m);
    SortMembers(m);
    SinglesLinked(Sort(m));
    JoinedKeeps(opp, Singles(Sort(m)));
    forall p
      ensures Net(Paths(SlotsOf(opp, m)), p) == Net(m, p)
    {
      SortKeeps(opp, m, p);
    }
    SortKeeps(opp, m, 0);
  }

  /** What the groups are made of: valid chains, with the effect of the move and
      no more steps. */
  lemma GroupsOfMove(opp: Opponent, m: seq<Step>)
    requires ValidMove(m)
    ensures ValidGroups(GroupsOf(opp, m))
    ensures SameEffect(opp, Expand(GroupsOf(opp, m)), m) && |Expand(GroupsOf(opp, m))| <= |m|
  {
    SlotsOfMove(opp, m);
    var d := SlotsOf(opp, m);
    GroupsKeep(opp, d);
    var gs := Groups(d);
    forall k | 0 <= k < |gs|
      ensures ValidGroup(gs[k])
    {
      GroupsFrom(d, k);
      CountBound(gs, k);
    }
  }

  /** A group of n equal chains takes at least n steps. */
  lemma {:induction false} CountBound(gs: seq<Group>, k: nat)
    requires k < |gs| && |gs[k].chain| >= 2
    ensures gs[k].count <= |Expand(gs)|
  {
    if k > 0 {
      CountBound(gs[1..], k - 1);
    } else {
      var n := |Path(gs[0].chain)|;
      assert gs[0].count <= gs[0].count * n by {
        assert gs[0].count * n == gs[0].count + gs[0].count * (n - 1);
      }
    }
  }

  /** No printed chain starts where another printed one ends. */
  lemma ChainsApart(opp: Opponent, m: seq<Step>, k: nat, l: nat)
    requires ValidMove(m) && k < |GroupsOf(opp, m)| && l < |GroupsOf(opp, m)|
    ensures GroupsOf(opp, m)[k].chain != [] && GroupsOf(opp, m)[l].chain != []
    ensures Last(GroupsOf(opp, m)[k].chain) != GroupsOf(opp, m)[l].chain[0]
  {
    SlotsOfMove(opp, m);
    var d := SlotsOf(opp, m);
    GroupsFrom(d, k);
    GroupsFrom(d, l);
    var i :| 0 <= i < 4 && d[i] == Groups(d)[k].chain;
    var j :| 0 <= j < 4 && d[j] == Groups(d)[l].chain;
    assert Apart(d[i], d[j]);
  }

  ghost function MoveString(opp: Opponent, m: seq<Step>): string
    requires ValidMove(m)
  {
    GroupsOfMove(opp, m);
    Text(opp, GroupsOf(opp, m), {})
  }
}
