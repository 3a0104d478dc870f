// The interface tables: every function is put on a dispatch list, and separately gets an index and a list number.
module ApiTables {
  import opened Words

  datatype ValueType = Int32 | Pointer(to: nat) | OtherType(n: nat)

  datatype Prototype = Prototype(result: ValueType, params: seq<ValueType>)

  const BYTES := Pointer(8)

  // The known prototypes, by list number.
  const API: seq<Prototype> := [
    Prototype(Int32, [Int32, Int32]),
    Prototype(Int32, [BYTES, Int32]),
    Prototype(Int32, [Int32]),
    Prototype(BYTES, [Int32]),
    Prototype(Int32, [BYTES, Int32, Int32, Int32, Int32]),
    Prototype(Int32, []),
    Prototype(BYTES, [Int32, Int32]),
    Prototype(Int32, [Int32, Int32, Int32]),
    Prototype(Int32, [BYTES, Int32, BYTES, Int32]),
    Prototype(Int32, [BYTES, Int32, Int32])
  ]

  const KINDS := 10

  datatype Kind = Known(k: nat) | Unknown | Undefined

  // Functions of an integer result, a pointer and an integer belong with list 1 whatever the pointer.
  predicate BufferLike(f: Prototype) {
    f.result == Int32 && |f.params| >= 2 && f.params[0].Pointer? && f.params[1] == Int32
  }

  // The list of a function: the first loop tries the prototypes in order, then looks at the first two
  // parameters without asking how many there are.
  function ListOf(f: Prototype): (r: Kind)
    ensures r.Known? ==> r.k < KINDS
  {
    if f in API then Known(IndexOf(f, 0))
    else if f.result != Int32 then Unknown
    else if f.params == [] then Undefined
    else if !f.params[0].Pointer? then Unknown
    else if |f.params| == 1 then Undefined
    else if f.params[1] == Int32 then Known(1)
    else Unknown
  }

  function IndexOf(f: Prototype, k: nat): (r: nat)
    requires k <= KINDS && f in API[k..]
    ensures k <= r < KINDS && API[r] == f
    decreases KINDS - k
  {
    if API[k] == f then k else IndexOf(f, k + 1)
  }

  // The list number written beside a function: the second loop tries list 1 last and asks for two parameters.
  function NumberOf(f: Prototype): Kind {
    if f == API[0] then Known(0)
    else if f == API[2] then Known(2)
    else if f == API[3] then Known(3)
    else if f == API[4] then Known(4)
    else if f == API[5] then Known(5)
    else if f == API[6] then Known(6)
    else if f == API[7] then Known(7)
    else if f == API[8] then Known(8)
    else if f == API[9] then Known(9)
    else if f == API[1] || (|f.params| == 2 && BufferLike(f)) then Known(1)
    else Unknown
  }

  // The two loops agree but for functions of more than two parameters that only the first accepts.
  lemma {:induction false} LoopsAgree(f: Prototype)
    ensures NumberOf(f) == ListOf(f) <==> ListOf(f) != Undefined && !(f !in API && BufferLike(f) && |f.params| > 2)
    ensures NumberOf(f) != ListOf(f) ==> NumberOf(f) == Unknown
  {
    if f in API {
      var k := IndexOf(f, 0);
      assert API[k] == f;
    } else {
      forall k | 0 <= k < KINDS ensures API[k] != f {}
    }
  }

  // ---- the dispatch lists, prototype by prototype ----

  // What the interpreter calls through list k: on list 1 any pointer and an i32.
  predicate CalledAs(f: Prototype, k: nat) {
    match k
    case 0 => f.result == Int32 && f.params == [Int32, Int32]
    case 1 => f.result == Int32 && |f.params| == 2 && f.params[0].Pointer? && f.params[1] == Int32
    case 2 => f.result == Int32 && f.params == [Int32]
    case 3 => f.result == Pointer(8) && f.params == [Int32]
    case 4 => f.result == Int32 && f.params == [Pointer(8), Int32, Int32, Int32, Int32]
    case 5 => f.result == Int32 && f.params == []
    case 6 => f.result == Pointer(8) && f.params == [Int32, Int32]
    case 7 => f.result == Int32 && f.params == [Int32, Int32, Int32]
    case 8 => f.result == Int32 && f.params == [Pointer(8), Int32, Pointer(8), Int32]
    case 9 => f.result == Int32 && f.params == [Pointer(8), Int32, Int32]
    case _ => false
  }

  // The first loop looks at the first two parameters only.
  predicate Accepted(f: Prototype, k: nat) {
    CalledAs(f, k) || (k == 1 && (forall j :: 0 <= j < KINDS ==> !CalledAs(f, j)) && BufferLike(f))
  }

  ghost predicate IsCalled(f: Prototype) { exists k :: CalledAs(f, k) }

  ghost predicate IsAccepted(f: Prototype) { exists k :: Accepted(f, k) }

  // It looks for a second parameter that is not there.
  predicate LooksPast(f: Prototype) { f.result == Int32 && |f.params| == 1 && f.params[0].Pointer? }

  lemma {:induction false} ApiCalledAs(k: nat)
    requires k < KINDS
    ensures CalledAs(API[k], k)
  {
  }

  lemma {:induction false} CalledOnce(f: Prototype, j: nat, k: nat)
    requires CalledAs(f, j) && CalledAs(f, k)
    ensures j == k < KINDS
  {
  }

  lemma {:induction false} CalledInApi(f: Prototype, k: nat)
    requires CalledAs(f, k) && k != 1
    ensures k < KINDS && f == API[k] && f in API
  {
  }

  lemma {:induction false} ListCalls(f: Prototype, k: nat)
    ensures ListOf(f) == Known(k) <==> Accepted(f, k)
    ensures ListOf(f) == Undefined <==> LooksPast(f)
  {
    if f in API {
      var j := IndexOf(f, 0);
      assert API[j] == f;
      ApiCalledAs(j);
      hide IndexOf;
      if Accepted(f, k) { CalledOnce(f, j, k); }
    } else {
      if CalledAs(f, k) && k != 1 { CalledInApi(f, k); }
      forall j | 0 <= j < KINDS && CalledAs(f, j) ensures j == 1 { if j != 1 { CalledInApi(f, j); } }
    }
  }

  lemma {:induction false} NumberCalls(f: Prototype, k: nat)
    ensures NumberOf(f) == ListOf(f) == Known(k) <==> CalledAs(f, k)
  {
    hide ListOf, NumberOf;
    LoopsAgree(f);
    ListCalls(f, k);
    if CalledAs(f, k) && f !in API {
      if k != 1 { CalledInApi(f, k); }
    }
    if Accepted(f, k) && !CalledAs(f, k) {
      if f in API { var j :| 0 <= j < KINDS && API[j] == f; ApiCalledAs(j); }
    }
  }

  // ---- the tables ----

  // Function positions by list, and for each function the index and list number written beside it.
  datatype Tables = Tables(lists: seq<seq<nat>>, entries: seq<(nat, nat)>)

  datatype Outcome = Done(tables: Tables) | Failed | Faulted

  // Indices are kept in 16 bits.
  const INDICES := 65536

  ghost predicate AllListed(fs: seq<Prototype>) { forall i :: 0 <= i < |fs| ==> ListOf(fs[i]).Known? }

  // The positions of functions of list k among the first n, in order.
  function Members(fs: seq<Prototype>, k: nat, n: nat): seq<nat>
    requires n <= |fs|
  {
    if n == 0 then [] else Members(fs, k, n - 1) + if ListOf(fs[n - 1]) == Known(k) then [n - 1] else []
  }

  lemma {:induction false} MembersKeep(fs: seq<Prototype>, k: nat, m: nat, n: nat)
    requires m <= n <= |fs|
    ensures Members(fs, k, m) <= Members(fs, k, n)
    decreases n
  {
    if m < n { MembersKeep(fs, k, m, n - 1); }
  }

  // First loop.
  method Classify(fs: seq<Prototype>) returns (ok: bool, fault: bool, lists: seq<seq<nat>>)
    ensures ok <==> AllListed(fs)
    ensures fault <==> exists i :: FaultsAt(fs, i)
    ensures |lists| == KINDS && (ok ==> forall k :: 0 <= k < KINDS ==> lists[k] == Members(fs, k, |fs|))
  {
    hide ListOf, NumberOf;
    lists := seq(KINDS, k => []);
    var i := 0;
    while i < |fs|
      invariant 0 <= i <= |fs| && |lists| == KINDS && AllListed(fs[..i]) && forall j :: 0 <= j < i ==> ListOf(fs[j]).Known?
      invariant forall k :: 0 <= k < KINDS ==> lists[k] == Members(fs, k, i)
    {
      assert fs[..i + 1] == fs[..i] + [fs[i]];
      match ListOf(fs[i]) {
        case Unknown =>
          OneFault(fs, i);
          return false, false, lists;
        case Undefined =>
          OneFault(fs, i);
          return false, true, lists;
        case Known(k) =>
          lists := lists[k := lists[k] + [i]];
      }
      i := i + 1;
    }
    ok, fault := true, false;
  }

  // The first function without a list is one whose parameters are looked past.
  ghost predicate FaultsAt(fs: seq<Prototype>, i: nat) { i < |fs| && AllListed(fs[..i]) && ListOf(fs[i]) == Undefined }

  lemma {:induction false} ListedBefore(fs: seq<Prototype>, i: nat)
    requires i <= |fs| && AllListed(fs[..i])
    ensures forall j :: 0 <= j < i ==> ListOf(fs[j]).Known?
  {
    hide ListOf;
    forall j | 0 <= j < i ensures ListOf(fs[j]).Known? { assert fs[..i][j] == fs[j]; }
  }

  lemma {:induction false} OneFault(fs: seq<Prototype>, i: nat)
    requires i < |fs| && AllListed(fs[..i]) && !ListOf(fs[i]).Known?
    ensures (exists j :: FaultsAt(fs, j)) <==> ListOf(fs[i]) == Undefined
  {
    hide ListOf;
    forall j: nat | FaultsAt(fs, j) ensures j == i {
      ListedBefore(fs, i);
      ListedBefore(fs, j);
    }
    if ListOf(fs[i]) == Undefined { assert FaultsAt(fs, i); }
  }

  lemma {:induction false} MembersNext(fs: seq<Prototype>, k: nat, i: nat)
    requires i < |fs|
    ensures Members(fs, k, i + 1) == Members(fs, k, i) + if ListOf(fs[i]) == Known(k) then [i] else []
  {
  }

  lemma {:induction false} WrapNext(x: nat)
    ensures (x % INDICES + 1) % INDICES == (x + 1) % INDICES
  {
  }

  // Second loop, over the same functions.
  method Number(fs: seq<Prototype>) returns (ok: bool, entries: seq<(nat, nat)>)
    requires AllListed(fs)
    ensures ok <==> forall i :: 0 <= i < |fs| ==> NumberOf(fs[i]) == ListOf(fs[i])
    ensures ok ==> |entries| == |fs| && forall i :: 0 <= i < |fs| ==>
      Known(entries[i].1) == ListOf(fs[i]) && entries[i].0 == |Members(fs, entries[i].1, i)| % INDICES
  {
    hide ListOf, NumberOf, Members;
    entries := [];
    var next := seq(KINDS, k => 0);
    var i := 0;
    forall k | 0 <= k < KINDS ensures |Members(fs, k, 0)| == 0 { MembersCount(fs, k, 0); }
    while i < |fs|
      invariant 0 <= i <= |fs| == |entries| + (|fs| - i) && |next| == KINDS
      invariant forall j :: 0 <= j < i ==> NumberOf(fs[j]) == ListOf(fs[j])
      invariant forall k :: 0 <= k < KINDS ==> next[k] == |Members(fs, k, i)| % INDICES
      invariant forall j :: 0 <= j < i ==>
        Known(entries[j].1) == ListOf(fs[j]) && entries[j].0 == |Members(fs, entries[j].1, j)| % INDICES
    {
      LoopsAgree(fs[i]);
      match NumberOf(fs[i]) {
        case Unknown => return false, entries;
        case Undefined => return false, entries;
        case Known(k) =>
          assert Known(k) == ListOf(fs[i]);
          forall m | 0 <= m < KINDS ensures |Members(fs, m, i + 1)| == |Members(fs, m, i)| + if m == k then 1 else 0 {
            MembersNext(fs, m, i);
          }
          WrapNext(|Members(fs, k, i)|);
          entries := entries + [(next[k], k)];
          next := next[k := (next[k] + 1) % INDICES];
      }
      i := i + 1;
    }
    ok := true;
  }

  // Done exactly when every function is called as one of the lists says; then it stands on that list alone
  // and has its number. Faulted exactly when the first function the first loop takes for none of them has
  // one parameter too few to look at.
  method Output(fs: seq<Prototype>) returns (o: Outcome)
    ensures o.Done? <==> forall i :: 0 <= i < |fs| ==> IsCalled(fs[i])
    ensures o.Done? ==> AsCalled(fs, o.tables)
    ensures o.Done? && |fs| <= INDICES ==> Paired(fs, o.tables)
    ensures o.Faulted? <==> exists i :: PastAt(fs, i)
  {
    hide ListOf, NumberOf, CalledAs, BufferLike;
    var ok, fault, lists := Classify(fs);
    Faults(fs);
    if !ok {
      if fault {
        ghost var past: nat :| FaultsAt(fs, past);
        Uncalled(fs[past]);
        return Faulted;
      }
      ghost var i :| 0 <= i < |fs| && !ListOf(fs[i]).Known?;
      Uncalled(fs[i]);
      return Failed;
    }
    var numbered, entries := Number(fs);
    if !numbered {
      ghost var i :| 0 <= i < |fs| && NumberOf(fs[i]) != ListOf(fs[i]);
      if IsCalled(fs[i]) { var k: nat :| CalledAs(fs[i], k); NumberCalls(fs[i], k); }
      return Failed;
    }
    o := Done(Tables(lists, entries));
    ListsCalled(fs, o.tables);
    forall i | 0 <= i < |fs| ensures IsCalled(fs[i]) { assert CalledAs(fs[i], o.tables.entries[i].1); }
    if |fs| <= INDICES { EntriesPair(fs, o.tables); }
  }

  // The functions on each list, in order, are those called as the list says, and so are those its number
  // stands beside.
  ghost predicate AsCalled(fs: seq<Prototype>, t: Tables) {
    && |t.entries| == |fs| && |t.lists| == KINDS
    && (forall i :: 0 <= i < |fs| ==> CalledAs(fs[i], t.entries[i].1))
    && (forall k, i :: 0 <= k < KINDS && i in t.lists[k] ==> i < |fs|)
    && (forall k, i :: 0 <= k < KINDS && 0 <= i < |fs| ==> (i in t.lists[k] <==> CalledAs(fs[i], k)))
    && forall k :: 0 <= k < KINDS ==> Increasing(t.lists[k])
  }

  predicate Increasing(xs: seq<nat>) { forall a, b :: 0 <= a < b < |xs| ==> xs[a] < xs[b] }

  lemma {:induction false} MembersIncrease(fs: seq<Prototype>, k: nat, n: nat)
    requires n <= |fs|
    ensures Increasing(Members(fs, k, n))
  {
    if n > 0 {
      MembersIncrease(fs, k, n - 1);
      MembersCount(fs, k, n - 1);
    }
  }

  // The first function without a list.
  ghost predicate PastAt(fs: seq<Prototype>, i: nat) {
    i < |fs| && LooksPast(fs[i]) && forall j :: 0 <= j < i ==> IsAccepted(fs[j])
  }

  lemma {:induction false} Uncalled(f: Prototype)
    requires !ListOf(f).Known?
    ensures !IsCalled(f)
  {
    hide ListOf, CalledAs;
    forall k: nat ensures !CalledAs(f, k) { ListCalls(f, k); }
  }

  lemma {:induction false} Faults(fs: seq<Prototype>)
    ensures (exists i :: FaultsAt(fs, i)) <==> exists i :: PastAt(fs, i)
  {
    hide ListOf, LooksPast, Accepted;
    forall i: nat | FaultsAt(fs, i) ensures PastAt(fs, i) {
      ListCalls(fs[i], 0);
      ListedBefore(fs, i);
      forall j | 0 <= j < i ensures IsAccepted(fs[j]) { ListAccepts(fs[j]); }
    }
    forall i: nat | PastAt(fs, i) ensures FaultsAt(fs, i) {
      ListCalls(fs[i], 0);
      forall j | 0 <= j < |fs[..i]| ensures ListOf(fs[..i][j]).Known? { ListAccepts(fs[j]); }
    }
  }

  lemma {:induction false} ListAccepts(f: Prototype)
    ensures ListOf(f).Known? <==> IsAccepted(f)
  {
    hide ListOf, Accepted;
    if ListOf(f).Known? { ListCalls(f, ListOf(f).k); }
    if k: nat :| Accepted(f, k) { ListCalls(f, k); }
  }

  lemma {:induction false} ListsCalled(fs: seq<Prototype>, t: Tables)
    requires |t.lists| == KINDS && |t.entries| == |fs|
    requires forall i :: 0 <= i < |fs| ==> NumberOf(fs[i]) == ListOf(fs[i]) && Known(t.entries[i].1) == ListOf(fs[i])
    requires forall k :: 0 <= k < KINDS ==> t.lists[k] == Members(fs, k, |fs|)
    ensures AsCalled(fs, t)
  {
    hide ListOf, NumberOf, Members, CalledAs;
    forall i | 0 <= i < |fs| ensures CalledAs(fs[i], t.entries[i].1) { NumberCalls(fs[i], t.entries[i].1); }
    forall k | 0 <= k < KINDS
      ensures Increasing(t.lists[k]) && forall i :: i in t.lists[k] ==> i < |fs| && ListOf(fs[i]) == Known(k)
    {
      MembersIncrease(fs, k, |fs|);
      MembersCount(fs, k, |fs|);
    }
    forall k, i | 0 <= k < KINDS && 0 <= i < |fs| ensures i in t.lists[k] <==> CalledAs(fs[i], k) {
      NumberCalls(fs[i], k);
      if CalledAs(fs[i], k) { EntryLeads(fs, k, i); }
    }
  }

  // Every entry leads to its own function, and every place on a list is led to by the entry of its function.
  ghost predicate Paired(fs: seq<Prototype>, t: Tables) {
    && |t.entries| == |fs| && |t.lists| == KINDS
    && (forall i :: 0 <= i < |fs| ==> var (n, k) := t.entries[i]; k < KINDS && n < |t.lists[k]| && t.lists[k][n] == i)
    && forall k, n :: 0 <= k < KINDS && 0 <= n < |t.lists[k]| ==> t.lists[k][n] < |fs| && t.entries[t.lists[k][n]] == (n, k)
  }

  lemma {:induction false} MembersCount(fs: seq<Prototype>, k: nat, n: nat)
    requires n <= |fs|
    ensures |Members(fs, k, n)| <= n
    ensures forall j :: 0 <= j < |Members(fs, k, n)| ==> var i := Members(fs, k, n)[j];
      i < n && ListOf(fs[i]) == Known(k) && |Members(fs, k, i)| == j
  {
    if n > 0 { MembersCount(fs, k, n - 1); }
  }

  lemma {:induction false} EntryLeads(fs: seq<Prototype>, k: nat, i: nat)
    requires i < |fs| && ListOf(fs[i]) == Known(k)
    ensures |Members(fs, k, i)| < |Members(fs, k, |fs|)| && |Members(fs, k, i)| <= i && Members(fs, k, |fs|)[|Members(fs, k, i)|] == i
  {
    hide ListOf, Members;
    MembersCount(fs, k, i);
    MembersNext(fs, k, i);
    MembersKeep(fs, k, i + 1, |fs|);
  }

  lemma {:induction false} EntriesPair(fs: seq<Prototype>, t: Tables)
    requires |fs| <= INDICES && AllListed(fs) && |t.lists| == KINDS && |t.entries| == |fs|
    requires forall k :: 0 <= k < KINDS ==> t.lists[k] == Members(fs, k, |fs|)
    requires forall i :: 0 <= i < |fs| ==>
      Known(t.entries[i].1) == ListOf(fs[i]) && t.entries[i].0 == |Members(fs, t.entries[i].1, i)| % INDICES
    ensures Paired(fs, t)
  {
    hide ListOf, Members;
    forall i | 0 <= i < |fs|
      ensures var (n, k) := t.entries[i]; k < KINDS && n == |Members(fs, k, i)| && n < |t.lists[k]| && t.lists[k][n] == i
    {
      EntryLeads(fs, t.entries[i].1, i);
    }
    forall k, n | 0 <= k < KINDS && 0 <= n < |t.lists[k]|
      ensures t.lists[k][n] < |fs| && t.entries[t.lists[k][n]] == (n, k)
    {
      MembersCount(fs, k, |fs|);
      var i := t.lists[k][n];
      assert t.entries[i].1 == k;
    }
  }
}
