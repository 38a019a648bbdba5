/**
 The rebalancing planner: an event's subscriptions per server are sorted, servers below the
 rounded-up average receive what they lack from the fullest server, and plans are applied to
 the record map.
 */
module Planner {
  import opened Common

  type Addr = string
  datatype SubMeta = SubMeta(addr: Addr, num: int)
  datatype Plan = Plan(event: string, src: Addr, dest: Addr, num: int)

  /** eventRecordMap: subscriptions per event and server. */
  type Record = map<string, map<Addr, int>>

  // ---------- Sums ----------

  /** Total over a record map. */
  ghost function Sum(m: map<Addr, int>): int
    decreases |m|
  {
    if m == map[] then 0
    else
      var a :| a in m;
      RemovedSize(m, a);
      m[a] + Sum(m - {a})
  }

  /** The total does not depend on the order of summation. */
  lemma {:induction false} SumRemove(m: map<Addr, int>, a: Addr)
    requires a in m
    ensures Sum(m) == m[a] + Sum(m - {a})
    decreases |m|
  {
    var b :| b in m && Sum(m) == m[b] + Sum(m - {b});
    if a != b {
      RemovedSize(m, b);
      RemovedSize(m, a);
      SumRemove(m - {b}, a);
      SumRemove(m - {a}, b);
      assert m - {b} - {a} == m - {a} - {b};
    }
  }

  function Lookup(m: map<Addr, int>, a: Addr): int {
    if a in m then m[a] else 0
  }

  lemma {:induction false} SumUpdate(m: map<Addr, int>, a: Addr, n: int)
    ensures Sum(m[a := n]) == Sum(m) - Lookup(m, a) + n
  {
    SumRemove(m[a := n], a);
    if a in m {
      SumRemove(m, a);
      assert m[a := n] - {a} == m - {a};
    } else {
      assert m[a := n] - {a} == m;
    }
  }

  // ---------- Applying plans ----------

  /** redistributeStatusMap: a missing entry counts as zero. */
  function Shifted(m: map<Addr, int>, a: Addr, n: int): map<Addr, int> {
    m[a := Lookup(m, a) + n]
  }

  /** Plans applied to the numbers of one event. */
  function Applied(m: map<Addr, int>, plans: seq<Plan>): map<Addr, int> {
    if plans == [] then m
    else
      var p := plans[|plans| - 1];
      Shifted(Shifted(Applied(m, plans[..|plans| - 1]), p.src, -p.num), p.dest, p.num)
  }

  /** The numbers of an event; none when it has no record. */
  function NumbersOf(r: Record, event: string): map<Addr, int> {
    if event in r then r[event] else map[]
  }

  /** The plans of a list that are for the event, in order. */
  function PlansFor(plans: seq<Plan>, event: string): seq<Plan> {
    if plans == [] then []
    else
      var n := |plans| - 1;
      PlansFor(plans[..n], event) + if plans[n].event == event then [plans[n]] else []
  }

  /** redistributeStatusMap on the record map; a missing event or server is created. */
  function ShiftedIn(r: Record, event: string, a: Addr, n: int): Record {
    r[event := Shifted(NumbersOf(r, event), a, n)]
  }

  /** Both halves of one plan. */
  function Carried(r: Record, p: Plan): Record {
    ShiftedIn(ShiftedIn(r, p.event, p.src, -p.num), p.event, p.dest, p.num)
  }

  function CarriedAll(r: Record, plans: seq<Plan>): Record {
    if plans == [] then r else Carried(CarriedAll(r, plans[..|plans| - 1]), plans[|plans| - 1])
  }

  lemma {:induction false} CarriedOne(r: Record, p: Plan, e: string)
    ensures NumbersOf(Carried(r, p), e)
         == if p.event == e then Shifted(Shifted(NumbersOf(r, e), p.src, -p.num), p.dest, p.num) else NumbersOf(r, e)
  {
    hide Shifted;
  }

  lemma {:induction false} PlansForOne(plans: seq<Plan>, e: string)
    requires plans != []
    ensures var n := |plans| - 1;
            PlansFor(plans, e) == if plans[n].event == e then PlansFor(plans[..n], e) + [plans[n]] else PlansFor(plans[..n], e)
  {
  }

  /** Each event sees exactly its own plans, in order. */
  lemma {:induction false} CarriedFor(r: Record, plans: seq<Plan>, e: string)
    ensures NumbersOf(CarriedAll(r, plans), e) == Applied(NumbersOf(r, e), PlansFor(plans, e))
  {
    if plans != [] {
      hide Carried, NumbersOf, Shifted, Applied, PlansFor;
      var n := |plans| - 1;
      CarriedFor(r, plans[..n], e);
      CarriedOne(CarriedAll(r, plans[..n]), plans[n], e);
      PlansForOne(plans, e);
      AppliedOne(NumbersOf(r, e), PlansFor(plans[..n], e), plans[n]);
    }
  }

  /** fakeRedistributeByPlan on a list of plans for any events. */
  method Redistribute(r: Record, plans: seq<Plan>) returns (r': Record)
    ensures forall e :: NumbersOf(r', e) == Applied(NumbersOf(r, e), PlansFor(plans, e))
    ensures forall e :: Sum(NumbersOf(r', e)) == Sum(NumbersOf(r, e))
  {
    hide Sum, Applied, PlansFor, NumbersOf, ShiftedIn;
    r' := r;
    for i := 0 to |plans|
      invariant r' == CarriedAll(r, plans[..i])
    {
      assert plans[..i + 1][..i] == plans[..i];
      var p := plans[i];
      r' := ShiftedIn(r', p.event, p.src, -p.num);
      r' := ShiftedIn(r', p.event, p.dest, p.num);
    }
    assert plans[..|plans|] == plans;
    forall e
      ensures NumbersOf(r', e) == Applied(NumbersOf(r, e), PlansFor(plans, e))
      ensures Sum(NumbersOf(r', e)) == Sum(NumbersOf(r, e))
    {
      CarriedFor(r, plans, e);
      Conserved(NumbersOf(r, e), PlansFor(plans, e));
    }
  }

  /** Whatever the plans, the event's total stays the same. */
  lemma {:induction false} Conserved(m: map<Addr, int>, plans: seq<Plan>)
    ensures Sum(Applied(m, plans)) == Sum(m)
  {
    hide Sum;
    if plans != [] {
      var n := |plans| - 1;
      var p, before := plans[n], Applied(m, plans[..n]);
      Conserved(m, plans[..n]);
      SumUpdate(before, p.src, Lookup(before, p.src) - p.num);
      var mid := Shifted(before, p.src, -p.num);
      SumUpdate(mid, p.dest, Lookup(mid, p.dest) + p.num);
    }
  }

  // ---------- The sorted list and the average ----------

  function Total(list: seq<SubMeta>): int {
    if list == [] then 0 else Total(list[..|list| - 1]) + list[|list| - 1].num
  }

  ghost predicate Descending(list: seq<SubMeta>) {
    forall i, j :: 0 <= i < j < |list| ==> list[i].num >= list[j].num
  }

  /** `list` holds the bindings of `m`, each once. */
  ghost predicate Lists(list: seq<SubMeta>, m: map<Addr, int>) {
    && (forall i :: 0 <= i < |list| ==> list[i].addr in m && m[list[i].addr] == list[i].num)
    && (forall i, j :: 0 <= i < j < |list| ==> list[i].addr != list[j].addr)
    && (forall a :: a in m ==> exists i :: 0 <= i < |list| && list[i].addr == a)
  }

  lemma {:induction false} ListsSum(list: seq<SubMeta>, m: map<Addr, int>)
    requires Lists(list, m)
    ensures Total(list) == Sum(m) && |list| == |m|
    decreases |list|
  {
    hide Lists;
    if list == [] {
      ListsNothing(m);
    } else {
      var n := |list| - 1;
      ListsFront(list, m);
      SumRemove(m, list[n].addr);
      RemovedSize(m, list[n].addr);
      ListsSum(list[..n], m - {list[n].addr});
    }
  }

  lemma {:induction false} ListsNothing(m: map<Addr, int>)
    requires Lists([], m)
    ensures m == map[]
  {
    assert m.Keys == {};
  }

  lemma {:induction false} ListsFront(list: seq<SubMeta>, m: map<Addr, int>)
    requires Lists(list, m) && list != []
    ensures var n := |list| - 1; var a := list[n].addr;
            a in m && m[a] == list[n].num && Lists(list[..n], m - {a})
  {
    var n := |list| - 1;
    var a, front := list[n].addr, list[..n];
    forall b | b in m - {a} ensures exists i :: 0 <= i < n && front[i].addr == b {
      var i :| 0 <= i < |list| && list[i].addr == b;
      assert front[i].addr == b;
    }
  }

  /** The rounded-up average of `n` numbers that sum to `s`. */
  function CeilDiv(s: int, n: int): int
    requires n >= 1
  {
    -((-s) / n)
  }

  lemma {:induction false} CeilDivBounds(s: int, n: int)
    requires n >= 1
    ensures n * (CeilDiv(s, n) - 1) < s <= n * CeilDiv(s, n)
  {
    var q, r := (-s) / n, (-s) % n;
    assert -s == n * q + r;
    assert n * (CeilDiv(s, n) - 1) == -(n * q) - n;
    assert n * CeilDiv(s, n) == -(n * q);
  }

  // ---------- The planner ----------

  /** One plan per server below the average, all from the head of the list. */
  function PlansUpTo(event: string, list: seq<SubMeta>, avg: int, k: nat): seq<Plan>
    requires 1 <= k <= |list|
  {
    if k == 1 then []
    else
      PlansUpTo(event, list, avg, k - 1) +
      if list[k - 1].num >= avg then [] else [Plan(event, list[0].addr, list[k - 1].addr, avg - list[k - 1].num)]
  }

  /** The largest surplus covers the largest deficit. */
  predicate Covers(list: seq<SubMeta>, avg: int)
    requires list != []
  {
    list[0].num - avg >= avg - list[|list| - 1].num
  }

  /** generatePlanForEvent after sorting; None when its donor index runs off the list. */
  method Generate(event: string, list: seq<SubMeta>, avg: int) returns (plans: Option<seq<Plan>>)
    requires Descending(list)
    ensures |list| <= 1 ==> plans == Some([])
    ensures |list| > 1 ==>
      plans == if Covers(list, avg) then Some(PlansUpTo(event, list, avg, |list|)) else None
  {
    var planList := [];
    if |list| <= 1 {
      return Some(planList);
    }
    var p1, p2 := 0, 1;
    while p2 < |list|
      invariant 0 <= p1 <= |list| && 1 <= p2 <= |list|
      invariant p1 == 0 ==> planList == PlansUpTo(event, list, avg, p2)
      invariant p1 == 0 && p2 > 1 ==> list[0].num - avg >= avg - list[p2 - 1].num
      invariant p1 > 0 ==> p2 < |list| && list[p2].num < avg && list[0].num - avg < avg - list[p2].num
      decreases |list| - p1 + |list| - p2
    {
      if list[p2].num >= avg {
        p2 := p2 + 1;
      } else {
        if p1 >= |list| {
          return None;
        }
        var supply := list[p1].num - avg;
        var needNum := avg - list[p2].num;
        if supply >= needNum {
          planList := planList + [Plan(event, list[p1].addr, list[p2].addr, needNum)];
          p2 := p2 + 1;
        } else {
          planList := planList + [Plan(event, list[p1].addr, list[p2].addr, supply)];
          p1 := p1 + 1;
        }
      }
    }
    return Some(planList);
  }

  // ---------- What the plans achieve ----------

  /** What the servers below `k` lack, and what they have too much, the donor aside. */
  function Deficit(list: seq<SubMeta>, avg: int, k: nat): int
    requires 1 <= k <= |list|
  {
    if k == 1 then 0
    else Deficit(list, avg, k - 1) + if list[k - 1].num >= avg then 0 else avg - list[k - 1].num
  }

  function Excess(list: seq<SubMeta>, avg: int, k: nat): int
    requires 1 <= k <= |list|
  {
    if k == 1 then 0
    else Excess(list, avg, k - 1) + if list[k - 1].num >= avg then list[k - 1].num - avg else 0
  }

  /** What server `i` has after the plans of the first `k` servers. */
  function Expected(list: seq<SubMeta>, avg: int, k: nat, i: nat): int
    requires 1 <= k <= |list| && i < |list|
  {
    if i == 0 then list[0].num - Deficit(list, avg, k)
    else if i < k && list[i].num < avg then avg
    else list[i].num
  }

  ghost predicate Balanced(list: seq<SubMeta>, m: map<Addr, int>, m': map<Addr, int>, avg: int, k: nat)
    requires 1 <= k <= |list|
  {
    && m'.Keys == m.Keys
    && forall i :: 0 <= i < |list| ==> list[i].addr in m' && m'[list[i].addr] == Expected(list, avg, k, i)
  }

  lemma {:induction false} PlansBalance(event: string, list: seq<SubMeta>, m: map<Addr, int>, avg: int, k: nat)
    requires Lists(list, m) && 1 <= k <= |list|
    ensures Balanced(list, m, Applied(m, PlansUpTo(event, list, avg, k)), avg, k)
  {
    hide Lists, Sum, Applied, Balanced, Shifted;
    if k == 1 {
      NothingPlanned(event, list, m, avg);
    } else {
      PlansBalance(event, list, m, avg, k - 1);
      var plans := PlansUpTo(event, list, avg, k - 1);
      if list[k - 1].num < avg {
        AppliedOne(m, plans, Plan(event, list[0].addr, list[k - 1].addr, avg - list[k - 1].num));
        OneMore(list, m, Applied(m, plans), avg, k);
      } else {
        assert plans + [] == plans;
        NoneNeeded(list, m, Applied(m, plans), avg, k);
      }
    }
  }

  lemma {:induction false} AppliedOne(m: map<Addr, int>, plans: seq<Plan>, p: Plan)
    ensures Applied(m, plans + [p]) == Shifted(Shifted(Applied(m, plans), p.src, -p.num), p.dest, p.num)
  {
    assert (plans + [p])[..|plans|] == plans;
  }

  lemma {:induction false} NoneNeeded(list: seq<SubMeta>, m: map<Addr, int>, m': map<Addr, int>, avg: int, k: nat)
    requires 2 <= k <= |list| && list[k - 1].num >= avg && Balanced(list, m, m', avg, k - 1)
    ensures Balanced(list, m, m', avg, k)
  {
    forall i | 0 <= i < |list| ensures Expected(list, avg, k, i) == Expected(list, avg, k - 1, i) {
    }
  }

  lemma {:induction false} NothingPlanned(event: string, list: seq<SubMeta>, m: map<Addr, int>, avg: int)
    requires Lists(list, m) && list != []
    ensures Applied(m, PlansUpTo(event, list, avg, 1)) == m && Balanced(list, m, m, avg, 1)
  {
  }

  lemma {:induction false} OneMore(list: seq<SubMeta>, m: map<Addr, int>, m': map<Addr, int>, avg: int, k: nat)
    requires Lists(list, m) && 2 <= k <= |list| && list[k - 1].num < avg
    requires Balanced(list, m, m', avg, k - 1)
    ensures var d := avg - list[k - 1].num;
            Balanced(list, m, Shifted(Shifted(m', list[0].addr, -d), list[k - 1].addr, d), avg, k)
  {
    var d := avg - list[k - 1].num;
    var src, dest := list[0].addr, list[k - 1].addr;
    var m'' := Shifted(Shifted(m', src, -d), dest, d);
    assert src in m' && dest in m';
    assert m''.Keys == m.Keys;
    assert m'[src] == Expected(list, avg, k - 1, 0) && m'[dest] == Expected(list, avg, k - 1, k - 1);
    forall i | 0 <= i < |list| ensures list[i].addr in m'' && m''[list[i].addr] == Expected(list, avg, k, i) {
      assert m'[list[i].addr] == Expected(list, avg, k - 1, i);
      assert i != 0 ==> list[i].addr != src;
      assert i != k - 1 ==> list[i].addr != dest;
    }
  }

  lemma {:induction false} TotalParts(list: seq<SubMeta>, avg: int, k: nat)
    requires 1 <= k <= |list|
    ensures Total(list[..k]) == list[0].num + avg * (k - 1) + Excess(list, avg, k) - Deficit(list, avg, k)
  {
    assert list[..k][..k - 1] == list[..k - 1];
    if k == 1 {
      assert list[..1][..0] == [];
    } else {
      TotalParts(list, avg, k - 1);
      assert avg * (k - 1) == avg * (k - 2) + avg;
    }
  }

  lemma {:induction false} NoExcess(list: seq<SubMeta>, avg: int, k: nat)
    requires 1 <= k <= |list| && forall i :: 1 <= i < k ==> list[i].num <= avg
    ensures Excess(list, avg, k) == 0
  {
    if k > 1 {
      NoExcess(list, avg, k - 1);
    }
  }

  /** Every server that was below the average has exactly the average, and every other one but
      the donor keeps what it had. */
  lemma {:induction false} OthersLevelled(event: string, list: seq<SubMeta>, m: map<Addr, int>, avg: int, a: Addr)
    requires Lists(list, m) && list != [] && a in m && a != list[0].addr
    ensures var m' := Applied(m, PlansUpTo(event, list, avg, |list|));
            m'.Keys == m.Keys && m'[a] == if m[a] < avg then avg else m[a]
  {
    PlansBalance(event, list, m, avg, |list|);
    var i :| 0 <= i < |list| && list[i].addr == a;
    assert Applied(m, PlansUpTo(event, list, avg, |list|))[list[i].addr] == Expected(list, avg, |list|, i);
  }

  /** With the rounded-up average, the donor ends with the average less the rounding and less what
      the others have too much; with more than the average less the number of servers when no other
      server is above the average. */
  lemma {:induction false} DonorLevelled(event: string, list: seq<SubMeta>, m: map<Addr, int>)
    requires Lists(list, m) && Descending(list) && list != []
    ensures var n, avg := |list|, CeilDiv(Sum(m), |list|);
            var m' := Applied(m, PlansUpTo(event, list, avg, n));
            && n == |m| && list[0].addr in m' && list[0].num >= avg
            && m'[list[0].addr] == avg - (n * avg - Sum(m)) - Excess(list, avg, n)
            && ((forall i :: 1 <= i < n ==> list[i].num <= avg) ==> m'[list[0].addr] > avg - n)
  {
    hide Lists, Descending, CeilDiv, Sum, PlansUpTo, Excess, Deficit, Applied, Total;
    var n := |list|;
    var avg := CeilDiv(Sum(m), n);
    ListsSum(list, m);
    PlansBalance(event, list, m, avg, n);
    assert Applied(m, PlansUpTo(event, list, avg, n))[list[0].addr] == Expected(list, avg, n, 0);
    assert list[..n] == list;
    TotalParts(list, avg, n);
    CeilDivBounds(Sum(m), n);
    OneLess(n, avg);
    HeadAtLeast(list, avg);
    if forall i :: 1 <= i < n ==> list[i].num <= avg {
      NoExcess(list, avg, n);
    }
  }

  lemma {:induction false} OneLess(n: int, avg: int)
    ensures n * (avg - 1) == n * avg - n && avg * (n - 1) == n * avg - avg
  {
  }

  /** The fullest server is not below the rounded-up average. */
  lemma {:induction false} HeadAtLeast(list: seq<SubMeta>, avg: int)
    requires Descending(list) && list != [] && |list| * (avg - 1) < Total(list)
    ensures list[0].num >= avg
  {
    TotalAtMost(list, list[0].num);
    if list[0].num < avg {
      Scaled(|list|, list[0].num, avg - 1);
    }
  }

  lemma {:induction false} Scaled(n: nat, a: int, b: int)
    requires a <= b
    ensures n * a <= n * b
  {
    if n > 0 {
      Scaled(n - 1, a, b);
      assert n * a == (n - 1) * a + a && n * b == (n - 1) * b + b;
    }
  }

  lemma {:induction false} TotalAtMost(list: seq<SubMeta>, top: int)
    requires forall i :: 0 <= i < |list| ==> list[i].num <= top
    ensures Total(list) <= |list| * top
  {
    if list != [] {
      TotalAtMost(list[..|list| - 1], top);
      assert |list| * top == (|list| - 1) * top + top;
    }
  }

  // ---------- The whole planner ----------

  /** The listing and std::sort: any descending list of the bindings. */
  method SortedListing(m: map<Addr, int>) returns (list: seq<SubMeta>)
    ensures Lists(list, m) && Descending(list)
  {
    hide Lists, Descending;
    list := [];
    var todo := m.Keys;
    NothingListed();
    ghost var seen: map<Addr, int> := map[];
    while todo != {}
      invariant todo <= m.Keys && seen == map a | a in m && a !in todo :: m[a]
      invariant Lists(list, seen) && Descending(list)
    {
      var a :| a in todo;
      list := Insert(list, SubMeta(a, m[a]), seen);
      seen, todo := seen[a := m[a]], todo - {a};
    }
    assert seen == m;
  }

  lemma {:induction false} NothingListed()
    ensures Lists([], map[]) && Descending([])
  {
  }

  /** Insertion at the first place where the order allows it. */
  method Insert(list: seq<SubMeta>, x: SubMeta, ghost m: map<Addr, int>) returns (list': seq<SubMeta>)
    requires Lists(list, m) && Descending(list) && x.addr !in m
    ensures Lists(list', m[x.addr := x.num]) && Descending(list')
  {
    hide Lists;
    var k := 0;
    while k < |list| && list[k].num >= x.num
      invariant 0 <= k <= |list|
      invariant forall i :: 0 <= i < k ==> list[i].num >= x.num
    {
      k := k + 1;
    }
    list' := list[..k] + [x] + list[k..];
    InsertedIs(list, x, k);
    InsertedDescends(list, list', x, k);
    InsertedLists(list, list', x, k, m);
  }

  lemma {:induction false} InsertedIs(list: seq<SubMeta>, x: SubMeta, k: nat)
    requires k <= |list|
    ensures IsInserted(list, list[..k] + [x] + list[k..], x, k)
  {
  }

  /** `list'` is `list` with `x` put in at position `k`. */
  ghost predicate IsInserted(list: seq<SubMeta>, list': seq<SubMeta>, x: SubMeta, k: nat) {
    && k <= |list| && |list'| == |list| + 1 && list'[k] == x
    && (forall i :: 0 <= i < k ==> list'[i] == list[i])
    && forall i :: k < i < |list'| ==> list'[i] == list[i - 1]
  }

  lemma {:induction false} InsertedDescends(list: seq<SubMeta>, list': seq<SubMeta>, x: SubMeta, k: nat)
    requires Descending(list) && IsInserted(list, list', x, k) && (forall i :: 0 <= i < k ==> list[i].num >= x.num)
    requires k < |list| ==> list[k].num < x.num
    ensures Descending(list')
  {
  }

  lemma {:induction false} InsertedLists(list: seq<SubMeta>, list': seq<SubMeta>, x: SubMeta, k: nat, m: map<Addr, int>)
    requires Lists(list, m) && IsInserted(list, list', x, k) && x.addr !in m
    ensures Lists(list', m[x.addr := x.num])
  {
    var m' := m[x.addr := x.num];
    assert forall i :: 0 <= i < |list| ==> list[i].addr != x.addr;
    forall a | a in m' ensures exists i :: 0 <= i < |list'| && list'[i].addr == a {
      if a == x.addr {
        assert list'[k].addr == a;
      } else {
        var i :| 0 <= i < |list| && list[i].addr == a;
        if i < k {
          assert list'[i].addr == a;
        } else {
          assert list'[i + 1].addr == a;
        }
      }
    }
  }

  function Ceil(x: real): int {
    -((-x).Floor)
  }

  /** getAverage; a missing or empty record averages to zero. */
  method GetAverage(m: map<Addr, int>) returns (avg: real)
    ensures avg == if |m| == 0 then 0.0 else Sum(m) as real / |m| as real
  {
    if |m| == 0 {
      return 0.0;
    }
    var sum := 0;
    var todo := m;
    while todo != map[]
      invariant sum + Sum(todo) == Sum(m)
      decreases |todo|
    {
      assert todo.Keys != {};
      var a :| a in todo;
      SumRemove(todo, a);
      RemovedSize(todo, a);
      sum := sum + todo[a];
      todo := todo - {a};
    }
    return sum as real / |m| as real;
  }

  lemma {:induction false} CeilAverage(s: int, n: int)
    requires n >= 1
    ensures Ceil(s as real / n as real) == CeilDiv(s, n)
  {
    var x := s as real / n as real;
    CeilBounds(x);
    RealBounds(s, n, x, Ceil(x));
    OneCeiling(s, n, Ceil(x));
  }

  lemma {:induction false} CeilBounds(x: real)
    ensures (Ceil(x) - 1) as real < x <= Ceil(x) as real
  {
    var f := (-x).Floor;
    assert f as real <= -x < (f + 1) as real;
    assert (-f) as real == -(f as real) && (-f - 1) as real == -(f as real) - 1.0;
  }

  lemma {:induction false} RealBounds(s: int, n: int, x: real, a: int)
    requires n >= 1 && x == s as real / n as real && (a - 1) as real < x <= a as real
    ensures n * (a - 1) < s <= n * a
  {
    var r := n as real;
    assert x * r == s as real;
    ScaledReal((a - 1) as real, x, n);
    ScaledReal(x, a as real, n);
    Product(n, a - 1);
    Product(n, a);
    assert (n * (a - 1)) as real < s as real;
    assert s as real <= (n * a) as real;
  }

  lemma {:induction false} Product(n: int, a: int)
    ensures (n * a) as real == a as real * n as real
  {
  }

  lemma {:induction false} OneCeiling(s: int, n: int, a: int)
    requires n >= 1 && n * (a - 1) < s <= n * a
    ensures a == CeilDiv(s, n)
  {
    CeilDivBounds(s, n);
    hide CeilDiv;
    var b := CeilDiv(s, n);
    if a < b {
      Scaled(n, a, b - 1);
    } else if b < a {
      Scaled(n, b, a - 1);
    }
  }

  lemma {:induction false} ScaledReal(x: real, y: real, n: int)
    requires n >= 1
    ensures x <= y ==> x * n as real <= y * n as real
    ensures x < y ==> x * n as real < y * n as real
  {
  }

  /** generatePlanForEvent on the record map: sort, average, plan. It stays inside the list
      exactly when the largest surplus covers the largest deficit. */
  method GeneratePlanForEvent(r: Record, event: string) returns (plans: Option<seq<Plan>>, list: seq<SubMeta>)
    ensures var m := NumbersOf(r, event);
            && Lists(list, m) && Descending(list) && |list| == |m|
            && (|m| <= 1 ==> plans == Some([]))
            && (|m| > 1 ==>
                var avg := CeilDiv(Sum(m), |m|);
                plans == if Covers(list, avg) then Some(PlansUpTo(event, list, avg, |list|)) else None)
  {
    hide Lists, Descending, Sum;
    var m := NumbersOf(r, event);
    var avg := GetAverage(m);
    list := SortedListing(m);
    ListsSum(list, m);
    if |m| >= 1 {
      CeilAverage(Sum(m), |m|);
    }
    plans := Generate(event, list, Ceil(avg));
  }

  /** Three servers with 4, 4 and 1 subscriptions: the rounded-up average is 3, no server has the
      2 to spare that the last one lacks, and the planner runs past its list. */
  method RunsPastTheList(event: string) returns (plans: Option<seq<Plan>>)
    ensures plans == None
  {
    hide Covers;
    var m := map["a" := 4, "b" := 4, "c" := 1];
    var list;
    plans, list := GeneratePlanForEvent(map[event := m], event);
    TooLittleSurplus(list);
  }

  lemma {:induction false} TooLittleSurplus(list: seq<SubMeta>)
    requires Lists(list, map["a" := 4, "b" := 4, "c" := 1]) && Descending(list)
    ensures |map["a" := 4, "b" := 4, "c" := 1]| == |list| == 3
    ensures CeilDiv(Sum(map["a" := 4, "b" := 4, "c" := 1]), 3) == 3 && !Covers(list, 3)
  {
    hide Sum;
    var m := map["a" := 4, "b" := 4, "c" := 1];
    SumOfNine();
    ListsSum(list, m);
    assert m.Keys == {"a", "b", "c"};
    assert |m.Keys| == 3;
    assert list[0].num <= 4;
    assert "c" in m;
    var i :| 0 <= i < |list| && list[i].addr == "c";
    assert list[|list| - 1].num <= list[i].num;
  }

  lemma {:induction false} SumOfNine()
    ensures Sum(map["a" := 4, "b" := 4, "c" := 1]) == 9
  {
    assert Sum(map[]) == 0;
    hide Sum;
    SumUpdate(map[], "a", 4);
    assert map[]["a" := 4] == map["a" := 4];
    SumUpdate(map["a" := 4], "b", 4);
    assert map["a" := 4]["b" := 4] == map["a" := 4, "b" := 4];
    SumUpdate(map["a" := 4, "b" := 4], "c", 1);
    assert map["a" := 4, "b" := 4]["c" := 1] == map["a" := 4, "b" := 4, "c" := 1];
  }

  /** Two servers with 5 and 1: the surplus 2 just covers the deficit 2, and that is the plan. */
  method JustCovers(event: string) returns (plans: Option<seq<Plan>>)
    ensures plans == Some([Plan(event, "a", "b", 2)])
  {
    var m := map["a" := 5, "b" := 1];
    var list;
    plans, list := GeneratePlanForEvent(map[event := m], event);
    FiveAndOne(event, list);
  }

  lemma {:induction false} FiveAndOne(event: string, list: seq<SubMeta>)
    requires Lists(list, map["a" := 5, "b" := 1]) && Descending(list)
    ensures |map["a" := 5, "b" := 1]| == |list| == 2
    ensures CeilDiv(Sum(map["a" := 5, "b" := 1]), 2) == 3 && Covers(list, 3)
    ensures PlansUpTo(event, list, 3, 2) == [Plan(event, "a", "b", 2)]
  {
    var m := map["a" := 5, "b" := 1];
    SumOfSix();
    hide Sum;
    ListsSum(list, m);
    assert m.Keys == {"a", "b"};
    assert |m.Keys| == 2;
    assert list[0].addr in m && list[1].addr in m && list[0].addr != list[1].addr;
    assert PlansUpTo(event, list, 3, 1) == [];
  }

  lemma {:induction false} SumOfSix()
    ensures Sum(map["a" := 5, "b" := 1]) == 6
  {
    assert Sum(map[]) == 0;
    hide Sum;
    SumUpdate(map[], "a", 5);
    assert map[]["a" := 5] == map["a" := 5];
    SumUpdate(map["a" := 5], "b", 1);
    assert map["a" := 5]["b" := 1] == map["a" := 5, "b" := 1];
  }
}
