/**
 * The base station's matcher as a pure specification over the participant
 * table: each waiting proposer picks its best feasible provider, providers
 * that attract several new proposals reject them and raise their price, and
 * rounds repeat until nobody waits or the iteration ceiling is passed; the
 * final proposals are then turned into task assignments.
 */
module Matching {
  import opened Doubles
  import opened Mobility
  import opened Messages

  /** One participant slot of the base station's table. */
  datatype Slot = Slot(
    taskResource: real, taskDataSize: real, delayConstraint: real,
    taskPrice: real, sharedResource: real, price: real,
    isTaskReady: bool, taskAssignedFrom: int,
    position: Coord, speed: Coord, address: int)

  /** The state of a slot nobody has written yet. */
  const EmptySlot: Slot := Slot(0.0, 0.0, 0.0, 0.0, 0.0, 0.0, false, -1, Coord(0.0, 0.0, 0.0), Coord(0.0, 0.0, 0.0), 0)

  /** Marks a proposer without a proposal, and a record without a fog node. */
  const NoProposal: int := -1

  /** The congestion increment of a provider's task price. */
  function PriceIncrease(id: int): (r: real)
    ensures r > 0.0
  {
    0.001
  }

  /** Proposals are one entry per slot, each -1 or a slot index. */
  predicate InRange(vs: seq<Slot>, p: seq<int>)
  {
    |p| == |vs| && forall k :: 0 <= k < |p| ==> -1 <= p[k] < |p|
  }

  /**
   * What proposer `i` would gain by sending its task to provider `j`: nothing
   * when `j` is `i` itself or shares no resource, or when the transfer cannot
   * finish within the contact window or the total time breaks the delay
   * bound; otherwise `1 / totalTime - taskPrice(j)`.
   */
  function Offer(vs: seq<Slot>, i: nat, j: nat, m: MathLib): (r: Option<Ext>)
    requires i < |vs| && j < |vs|
    ensures r.Some? ==> i != j && vs[j].sharedResource != 0.0
  {
    if i == j || vs[j].sharedResource == 0.0 then None
    else
      var base := vs[i].taskResource / vs[j].sharedResource;
      var transmission := TransmissionTime(vs[i].taskDataSize, Distance(vs[i].position, vs[j].position, m), m);
      var window := Window(vs[i].position, vs[i].speed, vs[j].position, vs[j].speed, m);
      if Gt(transmission, Fin(window)) then None
      else
        var totalTime := AddReal(transmission, base);
        if Gt(DivPos(totalTime, 10.0), Fin(vs[i].delayConstraint)) then None
        else Some(SubReal(Recip(totalTime), vs[j].taskPrice))
  }

  /** Provider `j` passes both feasibility tests for proposer `i`. */
  predicate Feasible(vs: seq<Slot>, i: nat, j: nat, m: MathLib)
    requires i < |vs| && j < |vs|
  {
    Offer(vs, i, j, m).Some?
  }

  /** Proposer `i`'s offers from every slot, in slot order. */
  function Offers(vs: seq<Slot>, i: nat, m: MathLib): (row: seq<Option<Ext>>)
    requires i < |vs|
    ensures |row| == |vs| && row[i] == None
  {
    seq(|vs|, j requires 0 <= j < |vs| => Offer(vs, i, j, m))
  }

  /** No offer among the first `n` of `row` has a NaN preference. */
  predicate Ordered(row: seq<Option<Ext>>, n: nat)
    requires n <= |row|
  {
    forall j :: 0 <= j < n ==> row[j] != Some(NaN)
  }

  /** The running best of the choice scan: its provider and preference. */
  datatype Best = Best(id: int, pref: Ext)

  /**
   * The choice of proposer `i` among the first `n` offers of its row: start
   * from itself with preference 0 and take each offer that is strictly
   * better, or the first offer at all. With no offer it is `i` itself.
   */
  function Scan(row: seq<Option<Ext>>, i: nat, n: nat): (b: Best)
    requires i < |row| && row[i] == None && n <= |row|
    ensures 0 <= b.id < |row|
  {
    if n == 0 then Best(i, Fin(0.0))
    else
      var prev := Scan(row, i, n - 1);
      match row[n - 1]
      case None => prev
      case Some(pref) =>
        if Gt(pref, prev.pref) || prev.id == i then Best(n - 1, pref) else prev
  }

  /**
   * The scan stays at `i`, with preference 0, exactly when none of the first
   * `n` offers exists; otherwise it ends on one of them, with its preference.
   */
  lemma {:induction false} ScanFacts(row: seq<Option<Ext>>, i: nat, n: nat)
    requires i < |row| && row[i] == None && n <= |row|
    ensures var b := Scan(row, i, n);
      && (b.id == i <==> forall j :: 0 <= j < n ==> row[j] == None)
      && (b.id == i ==> b.pref == Fin(0.0))
      && (b.id != i ==> b.id < n && row[b.id] == Some(b.pref))
  {
    if n > 0 {
      ScanFacts(row, i, n - 1);
    }
  }

  /**
   * Without NaN preferences the scan's result is the best offer: at least as
   * good as every offer and strictly better than every earlier one, so ties
   * go to the lowest index.
   */
  lemma {:induction false} ScanMaximal(row: seq<Option<Ext>>, i: nat, n: nat)
    requires i < |row| && row[i] == None && n <= |row|
    requires Ordered(row, n)
    ensures var b := Scan(row, i, n);
      forall j :: 0 <= j < n && row[j].Some? ==>
        Ge(b.pref, row[j].value) && (j < b.id ==> Gt(b.pref, row[j].value))
  {
    if n > 0 {
      ScanMaximal(row, i, n - 1);
      ScanFacts(row, i, n - 1);
      ScanFacts(row, i, n);
      var prev := Scan(row, i, n - 1);
      var b := Scan(row, i, n);
      forall j | 0 <= j < n && row[j].Some?
        ensures Ge(b.pref, row[j].value) && (j < b.id ==> Gt(b.pref, row[j].value))
      {
        GtTotalOrder(b.pref, prev.pref, row[j].value);
      }
    }
  }

  /** The choice scan of proposer `i` over the first `n` slots, offer by offer. */
  function ScanOffers(vs: seq<Slot>, i: nat, m: MathLib, n: nat): (b: Best)
    requires i < |vs| && n <= |vs|
    ensures 0 <= b.id < |vs|
  {
    if n == 0 then Best(i, Fin(0.0))
    else
      var prev := ScanOffers(vs, i, m, n - 1);
      var offer := Offer(vs, i, n - 1, m);
      if offer.Some? && (Gt(offer.value, prev.pref) || prev.id == i) then Best(n - 1, offer.value) else prev
  }

  /** Scanning the offers one by one is scanning a row that holds proposer `i`'s offers. */
  lemma {:induction false} ScanOffersIsScan(vs: seq<Slot>, i: nat, m: MathLib, row: seq<Option<Ext>>, n: nat)
    requires i < |vs| && |row| == |vs| && row[i] == None && n <= |vs|
    requires forall j :: 0 <= j < n ==> row[j] == Offer(vs, i, j, m)
    ensures ScanOffers(vs, i, m, n) == Scan(row, i, n)
  {
    if n > 0 {
      ScanOffersIsScan(vs, i, m, row, n - 1);
      assert row[n - 1] == Offer(vs, i, n - 1, m);
    }
  }

  /** The provider proposer `i` picks this round. */
  function Choice(vs: seq<Slot>, i: nat, m: MathLib): (c: int)
    requires i < |vs|
    ensures 0 <= c < |vs|
  {
    ScanOffers(vs, i, m, |vs|).id
  }

  /**
   * The choice is `i` itself exactly when no provider is feasible; otherwise
   * it is a feasible provider whose offer is the best, the lowest index among
   * equals, provided no offer is NaN.
   */
  lemma ChoiceIsBestOffer(vs: seq<Slot>, i: nat, m: MathLib)
    requires i < |vs|
    ensures var c := Choice(vs, i, m);
      && (c == i <==> forall j :: 0 <= j < |vs| ==> !Feasible(vs, i, j, m))
      && (c != i ==> Feasible(vs, i, c, m))
    ensures var c := Choice(vs, i, m);
      Ordered(Offers(vs, i, m), |vs|) && c != i ==>
        forall j :: 0 <= j < |vs| && Feasible(vs, i, j, m) ==>
          Ge(Offer(vs, i, c, m).value, Offer(vs, i, j, m).value) &&
          (j < c ==> Gt(Offer(vs, i, c, m).value, Offer(vs, i, j, m).value))
  {
    var row := Offers(vs, i, m);
    var c := Choice(vs, i, m);
    forall j | 0 <= j < |vs| ensures row[j] == Offer(vs, i, j, m) {}
    ScanOffersIsScan(vs, i, m, row, |vs|);
    ScanFacts(row, i, |vs|);
    if c == i {
      forall j | 0 <= j < |vs| ensures !Feasible(vs, i, j, m) {
        assert row[j] == None;
      }
    } else {
      assert Feasible(vs, i, c, m);
    }
    if Ordered(row, |vs|) && c != i {
      ScanMaximal(row, i, |vs|);
      forall j | 0 <= j < |vs| && Feasible(vs, i, j, m)
        ensures Ge(Offer(vs, i, c, m).value, Offer(vs, i, j, m).value)
        ensures j < c ==> Gt(Offer(vs, i, c, m).value, Offer(vs, i, j, m).value)
      {
        assert row[j] == Offer(vs, i, j, m) && row[c] == Offer(vs, i, c, m);
      }
    }
  }

  /** A proposer that takes part in the next propose phase: ready and without a proposal. */
  predicate Waiting(vs: seq<Slot>, p: seq<int>, k: nat)
    requires |p| == |vs| && k < |p|
  {
    p[k] == NoProposal && vs[k].isTaskReady
  }

  /** The number of waiting proposers among the first `n` slots. */
  function Remaining(vs: seq<Slot>, p: seq<int>, n: nat): (r: nat)
    requires |p| == |vs| && n <= |vs|
    ensures r <= n
  {
    if n == 0 then 0
    else Remaining(vs, p, n - 1) + (if Waiting(vs, p, n - 1) then 1 else 0)
  }

  /** Nobody waits exactly when every ready slot holds a proposal. */
  lemma {:induction false} RemainingZero(vs: seq<Slot>, p: seq<int>, n: nat)
    requires |p| == |vs| && n <= |vs|
    ensures Remaining(vs, p, n) == 0 <==> forall k :: 0 <= k < n ==> !Waiting(vs, p, k)
  {
    if n > 0 {
      RemainingZero(vs, p, n - 1);
    }
  }

  /**
   * Giving a waiting proposer a proposal removes one from the count, and
   * withdrawing a ready proposer's proposal adds one.
   */
  lemma {:induction false} RemainingUpdate(vs: seq<Slot>, p: seq<int>, k: nat, v: int, n: nat)
    requires |p| == |vs| && k < n <= |vs|
    ensures Waiting(vs, p, k) && v != NoProposal ==>
      Remaining(vs, p[k := v], n) == Remaining(vs, p, n) - 1
    ensures vs[k].isTaskReady && p[k] != NoProposal && v == NoProposal ==>
      Remaining(vs, p[k := v], n) == Remaining(vs, p, n) + 1
  {
    if k < n - 1 {
      RemainingUpdate(vs, p, k, v, n - 1);
    } else {
      RemainingFrame(vs, p, p[k := v], n - 1);
    }
  }

  /** The count over a prefix only looks at that prefix. */
  lemma {:induction false} RemainingFrame(vs: seq<Slot>, p: seq<int>, q: seq<int>, n: nat)
    requires |p| == |vs| && |q| == |vs| && n <= |vs|
    requires forall k :: 0 <= k < n ==> p[k] == q[k]
    ensures Remaining(vs, p, n) == Remaining(vs, q, n)
  {
    if n > 0 {
      RemainingFrame(vs, p, q, n - 1);
    }
  }

  /**
   * The choices of the first `n` proposers, built one slot at a time; every
   * entry names a slot.
   */
  function ChoicesUpTo(vs: seq<Slot>, m: MathLib, n: nat): (cs: seq<int>)
    requires n <= |vs|
    ensures |cs| == n && forall k :: 0 <= k < n ==> 0 <= cs[k] < |vs|
  {
    if n == 0 then [] else ChoicesUpTo(vs, m, n - 1) + [Choice(vs, n - 1, m)]
  }

  /** Every proposer's choice over table `vs`. */
  function Choices(vs: seq<Slot>, m: MathLib): (cs: seq<int>)
    ensures |cs| == |vs|
  {
    ChoicesUpTo(vs, m, |vs|)
  }

  /** Entry `k` of the choice vector is proposer `k`'s choice. */
  lemma {:induction false} ChoicesAt(vs: seq<Slot>, m: MathLib, n: nat, k: nat)
    requires k < n <= |vs|
    ensures ChoicesUpTo(vs, m, n)[k] == Choice(vs, k, m)
  {
    if k < n - 1 {
      ChoicesAt(vs, m, n - 1, k);
    }
  }

  /** Proposer `k`'s proposal after the propose phase, given everyone's choices `cs`. */
  function Proposal(vs: seq<Slot>, p: seq<int>, cs: seq<int>, k: nat): int
    requires |p| == |vs| && |cs| == |vs| && k < |p|
  {
    if Waiting(vs, p, k) then cs[k] else p[k]
  }

  /** All proposals after the propose phase. */
  function Proposed(vs: seq<Slot>, p: seq<int>, cs: seq<int>): (q: seq<int>)
    requires |p| == |vs| && |cs| == |vs|
    ensures |q| == |vs|
  {
    seq(|vs|, k requires 0 <= k < |vs| => Proposal(vs, p, cs, k))
  }

  /** After the propose phase nobody waits, provided every choice names a slot. */
  lemma ProposeLeavesNoneWaiting(vs: seq<Slot>, p: seq<int>, cs: seq<int>)
    requires |p| == |vs| && |cs| == |vs|
    requires forall k :: 0 <= k < |vs| ==> 0 <= cs[k] < |vs|
    ensures Remaining(vs, Proposed(vs, p, cs), |vs|) == 0
  {
    var q := Proposed(vs, p, cs);
    forall k | 0 <= k < |vs| ensures !Waiting(vs, q, k) {
      assert q[k] == Proposal(vs, p, cs, k);
    }
    RemainingZero(vs, q, |vs|);
  }

  /**
   * The proposers among the first `n` slots that join provider `t` in this
   * propose phase, in slot order.
   */
  function Joining(vs: seq<Slot>, p: seq<int>, cs: seq<int>, t: int, n: nat): (g: seq<int>)
    requires |p| == |vs| && |cs| == |vs| && n <= |vs|
    ensures |g| <= n
  {
    if n == 0 then []
    else
      Joining(vs, p, cs, t, n - 1) +
        (if Waiting(vs, p, n - 1) && cs[n - 1] == t then [n - 1] else [])
  }

  /**
   * The joiners of `t` among the first `n` slots are exactly the waiting
   * slots whose choice is `t`, listed once each in increasing order.
   */
  lemma JoiningMembers(vs: seq<Slot>, p: seq<int>, cs: seq<int>, t: int, n: nat)
    requires |p| == |vs| && |cs| == |vs| && n <= |vs|
    ensures var g := Joining(vs, p, cs, t, n);
      && (forall x :: x in g <==> 0 <= x < n && Waiting(vs, p, x) && cs[x] == t)
      && (forall a, b :: 0 <= a < b < |g| ==> g[a] < g[b])
      && (forall a :: 0 <= a < |g| ==> 0 <= g[a] < n)
  {
    JoiningIn(vs, p, cs, t, n);
    JoiningSorted(vs, p, cs, t, n);
  }

  /** Membership in the joiners of `t` among the first `n` slots. */
  lemma {:induction false} JoiningIn(vs: seq<Slot>, p: seq<int>, cs: seq<int>, t: int, n: nat)
    requires |p| == |vs| && |cs| == |vs| && n <= |vs|
    ensures forall x :: x in Joining(vs, p, cs, t, n) <==> 0 <= x < n && Waiting(vs, p, x) && cs[x] == t
  {
    if n > 0 {
      JoiningIn(vs, p, cs, t, n - 1);
    }
  }

  /** The joiners of `t` among the first `n` slots are increasing slot indices below `n`. */
  lemma {:induction false} JoiningSorted(vs: seq<Slot>, p: seq<int>, cs: seq<int>, t: int, n: nat)
    requires |p| == |vs| && |cs| == |vs| && n <= |vs|
    ensures forall a :: 0 <= a < |Joining(vs, p, cs, t, n)| ==> 0 <= Joining(vs, p, cs, t, n)[a] < n
    ensures forall a, b :: 0 <= a < b < |Joining(vs, p, cs, t, n)| ==>
      Joining(vs, p, cs, t, n)[a] < Joining(vs, p, cs, t, n)[b]
  {
    if n > 0 {
      JoiningSorted(vs, p, cs, t, n - 1);
      var prev := Joining(vs, p, cs, t, n - 1);
      if Waiting(vs, p, n - 1) && cs[n - 1] == t {
        assert Joining(vs, p, cs, t, n) == prev + [n - 1];
      } else {
        assert Joining(vs, p, cs, t, n) == prev;
      }
    }
  }

  /** Every provider's joiners among the first `n` slots, indexed by provider. */
  function JoiningLists(vs: seq<Slot>, p: seq<int>, cs: seq<int>, n: nat): (ls: seq<seq<int>>)
    requires |p| == |vs| && |cs| == |vs| && n <= |vs|
    ensures |ls| == |vs|
  {
    seq(|vs|, t requires 0 <= t < |vs| => Joining(vs, p, cs, t, n))
  }

  /** All proposers that join provider `t` this round. */
  function Joiners(vs: seq<Slot>, p: seq<int>, cs: seq<int>, t: int): seq<int>
    requires |p| == |vs| && |cs| == |vs|
  {
    Joining(vs, p, cs, t, |vs|)
  }

  /** Rounds in which a contended provider keeps one proposer chosen at random. */
  predicate Lucky(iterations: nat)
  {
    iterations >= 1000 && iterations % 1000 == 0
  }

  /**
   * The joiner a contended provider keeps: in a lucky round the one at
   * position `rnd(iterations, t) % |joiners|`, otherwise nobody.
   */
  function Kept(vs: seq<Slot>, p: seq<int>, cs: seq<int>, iterations: nat, rnd: (nat, nat) -> nat, t: nat): int
    requires |p| == |vs| && |cs| == |vs|
  {
    var g := Joiners(vs, p, cs, t);
    if Lucky(iterations) && |g| > 1 then g[rnd(iterations, t) % |g|] else NoProposal
  }

  /** Proposer `k` joined a provider with other joiners and was not the one kept. */
  predicate Rejected(vs: seq<Slot>, p: seq<int>, cs: seq<int>, iterations: nat, rnd: (nat, nat) -> nat, k: nat)
    requires |p| == |vs| && |cs| == |vs| && k < |p|
  {
    Waiting(vs, p, k) &&
    var t := cs[k];
    t >= 0 && |Joiners(vs, p, cs, t)| > 1 && Kept(vs, p, cs, iterations, rnd, t) != k
  }

  /** The participant table and the proposals between two rounds. */
  datatype Table = Table(slots: seq<Slot>, proposals: seq<int>)

  /** Provider `t`'s slot after contention: its task price rises when several proposers joined it. */
  function Repriced(vs: seq<Slot>, p: seq<int>, cs: seq<int>, t: nat): Slot
    requires |p| == |vs| && |cs| == |vs| && t < |vs|
  {
    if |Joiners(vs, p, cs, t)| > 1 then vs[t].(taskPrice := vs[t].taskPrice + PriceIncrease(t)) else vs[t]
  }

  /** The proposal of `k` after contention. */
  function Contended(vs: seq<Slot>, p: seq<int>, cs: seq<int>, iterations: nat, rnd: (nat, nat) -> nat, k: nat): int
    requires |p| == |vs| && |cs| == |vs| && k < |p|
  {
    if Rejected(vs, p, cs, iterations, rnd, k) then NoProposal else Proposal(vs, p, cs, k)
  }

  /** One round with the choices `cs`: waiting proposers propose, then contended providers reject and reprice. */
  function RoundWith(vs: seq<Slot>, p: seq<int>, cs: seq<int>, iterations: nat, rnd: (nat, nat) -> nat): (r: Table)
    requires |p| == |vs| && |cs| == |vs|
    ensures |r.slots| == |vs| && |r.proposals| == |vs|
  {
    Table(
      seq(|vs|, t requires 0 <= t < |vs| => Repriced(vs, p, cs, t)),
      seq(|vs|, k requires 0 <= k < |vs| => Contended(vs, p, cs, iterations, rnd, k)))
  }

  /**
   * The proposals part-way through contention: the rejected joiners of the
   * providers below `t`, and those of `t` listed in `done`, have withdrawn.
   */
  function Withdrawing(vs: seq<Slot>, p: seq<int>, cs: seq<int>, iterations: nat, rnd: (nat, nat) -> nat,
                       t: int, done: seq<int>): (q: seq<int>)
    requires |p| == |vs| && |cs| == |vs|
    ensures |q| == |vs|
  {
    seq(|vs|, k requires 0 <= k < |vs| =>
      if Rejected(vs, p, cs, iterations, rnd, k) && (cs[k] < t || (cs[k] == t && k in done)) then NoProposal
      else Proposal(vs, p, cs, k))
  }

  /**
   * Withdrawing the `j`-th joiner of a contended provider: it is rejected
   * exactly when it is not the skipped position, and then its proposal is
   * the only one that changes.
   */
  lemma WithdrawStep(vs: seq<Slot>, p: seq<int>, cs: seq<int>, iterations: nat, rnd: (nat, nat) -> nat,
                     t: nat, j: nat, skip: int)
    requires |p| == |vs| && |cs| == |vs| && t < |vs|
    requires |Joiners(vs, p, cs, t)| > 1 && j < |Joiners(vs, p, cs, t)|
    requires skip == if Lucky(iterations) then rnd(iterations, t) % |Joiners(vs, p, cs, t)| else -1
    ensures var g := Joiners(vs, p, cs, t);
      && 0 <= g[j] < |vs|
      && (Rejected(vs, p, cs, iterations, rnd, g[j]) <==> j != skip)
      && (j != skip ==> vs[g[j]].isTaskReady && Withdrawing(vs, p, cs, iterations, rnd, t, g[..j])[g[j]] == t)
      && Withdrawing(vs, p, cs, iterations, rnd, t, g[..j + 1]) ==
           if j != skip then Withdrawing(vs, p, cs, iterations, rnd, t, g[..j])[g[j] := NoProposal]
           else Withdrawing(vs, p, cs, iterations, rnd, t, g[..j])
  {
    var g := Joiners(vs, p, cs, t);
    JoinerAt(vs, p, cs, t, j);
    JoinerRejected(vs, p, cs, iterations, rnd, t, j, skip);
    var x := g[j];
    var before := Withdrawing(vs, p, cs, iterations, rnd, t, g[..j]);
    var after := Withdrawing(vs, p, cs, iterations, rnd, t, g[..j + 1]);
    assert before[x] == Proposal(vs, p, cs, x);
    assert g[..j + 1] == g[..j] + [x];
    forall k | 0 <= k < |vs| && k != x ensures after[k] == before[k] {
      assert k in g[..j + 1] <==> k in g[..j];
    }
  }

  /** The `j`-th joiner of `t` is a waiting slot that chose `t` and is not among the earlier joiners. */
  lemma JoinerAt(vs: seq<Slot>, p: seq<int>, cs: seq<int>, t: nat, j: nat)
    requires |p| == |vs| && |cs| == |vs| && j < |Joiners(vs, p, cs, t)|
    ensures var g := Joiners(vs, p, cs, t);
      0 <= g[j] < |vs| && Waiting(vs, p, g[j]) && cs[g[j]] == t && g[j] !in g[..j]
  {
    var g := Joiners(vs, p, cs, t);
    JoiningMembers(vs, p, cs, t, |vs|);
    var x := g[j];
    assert x in g;
    forall y | y in g[..j] ensures y < x {
      var a :| 0 <= a < j && g[..j][a] == y;
    }
  }

  /** The `j`-th joiner of a contended provider is rejected exactly when it is not at the skipped position. */
  lemma JoinerRejected(vs: seq<Slot>, p: seq<int>, cs: seq<int>, iterations: nat, rnd: (nat, nat) -> nat,
                       t: nat, j: nat, skip: int)
    requires |p| == |vs| && |cs| == |vs| && t < |vs|
    requires |Joiners(vs, p, cs, t)| > 1 && j < |Joiners(vs, p, cs, t)|
    requires skip == if Lucky(iterations) then rnd(iterations, t) % |Joiners(vs, p, cs, t)| else -1
    requires var g := Joiners(vs, p, cs, t); 0 <= g[j] < |vs| && Waiting(vs, p, g[j]) && cs[g[j]] == t
    ensures Rejected(vs, p, cs, iterations, rnd, Joiners(vs, p, cs, t)[j]) <==> j != skip
  {
    var g := Joiners(vs, p, cs, t);
    JoiningMembers(vs, p, cs, t, |vs|);
    if Lucky(iterations) {
      assert Kept(vs, p, cs, iterations, rnd, t) == g[skip];
    }
  }

  /** Finishing provider `t` moves contention on to the next provider. */
  lemma WithdrawingNext(vs: seq<Slot>, p: seq<int>, cs: seq<int>, iterations: nat, rnd: (nat, nat) -> nat, t: nat)
    requires |p| == |vs| && |cs| == |vs| && t < |vs|
    ensures Withdrawing(vs, p, cs, iterations, rnd, t + 1, []) ==
      if |Joiners(vs, p, cs, t)| > 1 then Withdrawing(vs, p, cs, iterations, rnd, t, Joiners(vs, p, cs, t))
      else Withdrawing(vs, p, cs, iterations, rnd, t, [])
  {
    JoiningMembers(vs, p, cs, t, |vs|);
  }

  /** Once every provider has been handled, the proposals are those the round leaves. */
  lemma WithdrawingDone(vs: seq<Slot>, p: seq<int>, cs: seq<int>, iterations: nat, rnd: (nat, nat) -> nat)
    requires |p| == |vs| && |cs| == |vs|
    requires forall k :: 0 <= k < |vs| ==> 0 <= cs[k] < |vs|
    ensures Withdrawing(vs, p, cs, iterations, rnd, |vs|, []) == RoundWith(vs, p, cs, iterations, rnd).proposals
  {
  }

  /** The table part-way through contention: providers below `t` are repriced. */
  function RepricedBelow(vs: seq<Slot>, p: seq<int>, cs: seq<int>, t: int): (ws: seq<Slot>)
    requires |p| == |vs| && |cs| == |vs|
    ensures |ws| == |vs|
  {
    seq(|vs|, x requires 0 <= x < |vs| => if x < t then Repriced(vs, p, cs, x) else vs[x])
  }

  /** Handling provider `t` reprices it and nothing else. */
  lemma RepricedBelowNext(vs: seq<Slot>, p: seq<int>, cs: seq<int>, t: nat)
    requires |p| == |vs| && |cs| == |vs| && t < |vs|
    ensures RepricedBelow(vs, p, cs, t)[t] == vs[t]
    ensures RepricedBelow(vs, p, cs, t + 1) ==
      if |Joiners(vs, p, cs, t)| > 1
      then RepricedBelow(vs, p, cs, t)[t := vs[t].(taskPrice := vs[t].taskPrice + PriceIncrease(t))]
      else RepricedBelow(vs, p, cs, t)
  {
    assert RepricedBelow(vs, p, cs, t + 1) == RepricedBelow(vs, p, cs, t)[t := Repriced(vs, p, cs, t)];
  }

  /** One round over table `vs`. */
  function Round(vs: seq<Slot>, p: seq<int>, m: MathLib, iterations: nat, rnd: (nat, nat) -> nat): (r: Table)
    requires |p| == |vs|
    ensures |r.slots| == |vs| && |r.proposals| == |vs|
  {
    RoundWith(vs, p, Choices(vs, m), iterations, rnd)
  }

  /** The number of rounds after which an unfinished cycle is abandoned. */
  const Ceiling: nat := 10000

  /** The end of a matching cycle: the last table, and whether everyone holds a proposal. */
  datatype Cycle = Cycle(slots: seq<Slot>, proposals: seq<int>, resolved: bool)

  /**
   * Rounds from `iterations` on: stop resolved once nobody waits; a round run
   * with the counter past the ceiling ends the cycle unresolved.
   */
  function Rounds(vs: seq<Slot>, p: seq<int>, m: MathLib, rnd: (nat, nat) -> nat, iterations: nat): (c: Cycle)
    requires |p| == |vs| && iterations <= Ceiling + 1
    ensures |c.slots| == |vs| && |c.proposals| == |vs|
    decreases Ceiling + 1 - iterations, 2
  {
    if Remaining(vs, p, |vs|) == 0 then Cycle(vs, p, true)
    else RoundsWaiting(vs, p, m, rnd, iterations)
  }

  /**
   * The rest of a cycle in which someone still waits. Kept apart from
   * `Rounds` and `NextRounds` so that the verifier unfolds a cycle one round
   * at a time.
   */
  function RoundsWaiting(vs: seq<Slot>, p: seq<int>, m: MathLib, rnd: (nat, nat) -> nat, iterations: nat): (c: Cycle)
    requires |p| == |vs| && iterations <= Ceiling + 1 && Remaining(vs, p, |vs|) != 0
    ensures |c.slots| == |vs| && |c.proposals| == |vs|
    decreases Ceiling + 1 - iterations, 1
  {
    NextRounds(vs, p, m, rnd, iterations)
  }

  /** The round at `iterations` runs; past the ceiling the cycle ends there, unresolved. */
  function NextRounds(vs: seq<Slot>, p: seq<int>, m: MathLib, rnd: (nat, nat) -> nat, iterations: nat): (c: Cycle)
    requires |p| == |vs| && iterations <= Ceiling + 1
    ensures |c.slots| == |vs| && |c.proposals| == |vs|
    decreases Ceiling + 1 - iterations, 0
  {
    var next := Round(vs, p, m, iterations, rnd);
    if iterations > Ceiling then Cycle(next.slots, next.proposals, false)
    else Rounds(next.slots, next.proposals, m, rnd, iterations + 1)
  }

  /** A cycle that still has someone waiting runs one more round. */
  lemma RoundsUnfold(vs: seq<Slot>, p: seq<int>, m: MathLib, rnd: (nat, nat) -> nat, iterations: nat)
    requires |p| == |vs| && iterations <= Ceiling + 1 && Remaining(vs, p, |vs|) != 0
    ensures var next := Round(vs, p, m, iterations, rnd);
      Rounds(vs, p, m, rnd, iterations) ==
        if iterations > Ceiling then Cycle(next.slots, next.proposals, false)
        else Rounds(next.slots, next.proposals, m, rnd, iterations + 1)
  {
    assert Rounds(vs, p, m, rnd, iterations) == RoundsWaiting(vs, p, m, rnd, iterations)
      == NextRounds(vs, p, m, rnd, iterations);
  }

  /** Every slot starts a cycle without a proposal. */
  function Unproposed(n: nat): (p: seq<int>)
    ensures |p| == n && forall k :: 0 <= k < n ==> p[k] == NoProposal
  {
    seq(n, _ => NoProposal)
  }

  /** `ws` is `vs` with possibly different task prices and nothing else changed. */
  predicate Repricing(vs: seq<Slot>, ws: seq<Slot>)
  {
    |ws| == |vs| && forall t :: 0 <= t < |vs| ==> ws[t] == vs[t].(taskPrice := ws[t].taskPrice)
  }

  /** Feasibility does not depend on task prices: repricing never changes who can serve whom. */
  lemma FeasibleIgnoresPrice(vs: seq<Slot>, ws: seq<Slot>, i: nat, j: nat, m: MathLib)
    requires Repricing(vs, ws) && i < |vs| && j < |vs|
    ensures Feasible(vs, i, j, m) <==> Feasible(ws, i, j, m)
  {
    assert ws[i] == vs[i].(taskPrice := ws[i].taskPrice);
    assert ws[j] == vs[j].(taskPrice := ws[j].taskPrice);
  }

  /**
   * The proposals are well formed: each is -1 or a slot, only ready slots
   * hold one, and a proposal to another slot goes to a feasible provider.
   */
  predicate Consistent(vs: seq<Slot>, p: seq<int>, m: MathLib)
  {
    InRange(vs, p) &&
    forall k :: 0 <= k < |p| && p[k] != NoProposal ==>
      vs[k].isTaskReady && (p[k] != k ==> Feasible(vs, k, p[k], m))
  }

  /**
   * What one round does to providers and proposers: a provider joined by more
   * than one proposer has its task price raised by exactly the increment and
   * keeps none of them, or only the randomly kept one in a lucky round; a
   * provider joined by at most one keeps its price and that joiner; proposals
   * held from earlier rounds are untouched.
   */
  lemma RoundContention(vs: seq<Slot>, p: seq<int>, cs: seq<int>, iterations: nat, rnd: (nat, nat) -> nat)
    requires |p| == |vs| && |cs| == |vs|
    ensures var r := RoundWith(vs, p, cs, iterations, rnd);
      && Repricing(vs, r.slots)
      && (forall t :: 0 <= t < |vs| ==>
            r.slots[t].taskPrice ==
              vs[t].taskPrice + (if |Joiners(vs, p, cs, t)| > 1 then PriceIncrease(t) else 0.0))
      && (forall t, k :: 0 <= t < |vs| && 0 <= k < |vs| && k in Joiners(vs, p, cs, t) ==>
            (r.proposals[k] == t <==> |Joiners(vs, p, cs, t)| <= 1 || k == Kept(vs, p, cs, iterations, rnd, t)))
      && (forall t, k :: 0 <= t < |vs| && 0 <= k < |vs| && k in Joiners(vs, p, cs, t) && r.proposals[k] != t ==>
            r.proposals[k] == NoProposal)
      && (forall k :: 0 <= k < |vs| && !Waiting(vs, p, k) ==> r.proposals[k] == p[k])
  {
    var r := RoundWith(vs, p, cs, iterations, rnd);
    forall t | 0 <= t < |vs| ensures r.slots[t] == Repriced(vs, p, cs, t) {}
    forall k | 0 <= k < |vs| ensures r.proposals[k] == Contended(vs, p, cs, iterations, rnd, k) {}
    forall t, k | 0 <= t < |vs| && 0 <= k < |vs| && k in Joiners(vs, p, cs, t)
      ensures Waiting(vs, p, k) && cs[k] == t
    {
      JoiningMembers(vs, p, cs, t, |vs|);
    }
  }

  /**
   * Contention only looks at this round's joiners: a provider already holding
   * proposer `a` from an earlier round still accepts a lone new joiner `b`,
   * so after the round it holds both.
   */
  lemma HeldProviderTakesLoneJoiner(vs: seq<Slot>, p: seq<int>, cs: seq<int>, iterations: nat, rnd: (nat, nat) -> nat,
                                    t: nat, a: nat, b: nat)
    requires |p| == |vs| && |cs| == |vs| && t < |vs| && a < |vs| && b < |vs|
    requires p[a] == t && Joiners(vs, p, cs, t) == [b]
    ensures var r := RoundWith(vs, p, cs, iterations, rnd);
      r.proposals[a] == t && r.proposals[b] == t && r.slots[t].taskPrice == vs[t].taskPrice
  {
    JoiningMembers(vs, p, cs, t, |vs|);
    assert b in Joiners(vs, p, cs, t);
    RoundContention(vs, p, cs, iterations, rnd);
  }

  /** In a round that is not lucky, a contended provider keeps none of its joiners. */
  lemma NormalRoundRejectsAll(vs: seq<Slot>, p: seq<int>, cs: seq<int>, iterations: nat, rnd: (nat, nat) -> nat, t: nat)
    requires |p| == |vs| && |cs| == |vs| && t < |vs| && !Lucky(iterations)
    requires |Joiners(vs, p, cs, t)| > 1
    ensures forall k :: k in Joiners(vs, p, cs, t) ==>
      0 <= k < |vs| && RoundWith(vs, p, cs, iterations, rnd).proposals[k] == NoProposal
  {
    JoiningMembers(vs, p, cs, t, |vs|);
    RoundContention(vs, p, cs, iterations, rnd);
  }

  /** A lucky round leaves exactly one of a contended provider's joiners with it. */
  lemma LuckyRoundKeepsOne(vs: seq<Slot>, p: seq<int>, cs: seq<int>, iterations: nat, rnd: (nat, nat) -> nat, t: nat)
    requires |p| == |vs| && |cs| == |vs| && t < |vs| && Lucky(iterations)
    requires |Joiners(vs, p, cs, t)| > 1
    ensures var k := Kept(vs, p, cs, iterations, rnd, t);
      && k in Joiners(vs, p, cs, t) && 0 <= k < |vs|
      && RoundWith(vs, p, cs, iterations, rnd).proposals[k] == t
      && forall x :: x in Joiners(vs, p, cs, t) && x != k ==>
           0 <= x < |vs| && RoundWith(vs, p, cs, iterations, rnd).proposals[x] == NoProposal
  {
    JoiningMembers(vs, p, cs, t, |vs|);
    RoundContention(vs, p, cs, iterations, rnd);
  }

  /** A round keeps the proposals consistent, under the new prices. */
  lemma RoundConsistent(vs: seq<Slot>, p: seq<int>, m: MathLib, iterations: nat, rnd: (nat, nat) -> nat)
    requires Consistent(vs, p, m)
    ensures var r := Round(vs, p, m, iterations, rnd);
      Consistent(r.slots, r.proposals, m)
  {
    var cs := Choices(vs, m);
    var r := Round(vs, p, m, iterations, rnd);
    RoundContention(vs, p, cs, iterations, rnd);
    forall k | 0 <= k < |vs| && r.proposals[k] != NoProposal
      ensures -1 <= r.proposals[k] < |vs|
      ensures r.slots[k].isTaskReady
      ensures r.proposals[k] != k ==> Feasible(r.slots, k, r.proposals[k], m)
    {
      assert r.proposals[k] == Contended(vs, p, cs, iterations, rnd, k);
      if Waiting(vs, p, k) {
        ChoicesAt(vs, m, |vs|, k);
        ChoiceIsBestOffer(vs, k, m);
      }
      FeasibleIgnoresPrice(vs, r.slots, k, r.proposals[k], m);
    }
  }

  /** A round only raises task prices and changes nothing else in the table. */
  lemma RoundReprices(vs: seq<Slot>, p: seq<int>, m: MathLib, iterations: nat, rnd: (nat, nat) -> nat)
    requires |p| == |vs|
    ensures var r := Round(vs, p, m, iterations, rnd);
      Repricing(vs, r.slots) && forall t :: 0 <= t < |vs| ==> r.slots[t].taskPrice >= vs[t].taskPrice
  {
    RoundContention(vs, p, Choices(vs, m), iterations, rnd);
  }

  /** Repricing composes. */
  lemma RepricingTrans(us: seq<Slot>, vs: seq<Slot>, ws: seq<Slot>)
    requires Repricing(us, vs) && Repricing(vs, ws)
    ensures Repricing(us, ws)
  {
    forall t | 0 <= t < |us| ensures ws[t] == us[t].(taskPrice := ws[t].taskPrice) {
      assert vs[t] == us[t].(taskPrice := vs[t].taskPrice);
    }
  }

  /** Over the rounds of a cycle the proposals stay consistent; a resolved cycle leaves nobody waiting. */
  lemma {:induction false} RoundsConsistent(vs: seq<Slot>, p: seq<int>, m: MathLib, rnd: (nat, nat) -> nat, iterations: nat)
    requires Consistent(vs, p, m) && iterations <= Ceiling + 1
    ensures var c := Rounds(vs, p, m, rnd, iterations);
      Consistent(c.slots, c.proposals, m) && (c.resolved ==> Remaining(c.slots, c.proposals, |vs|) == 0)
    decreases Ceiling + 1 - iterations
  {
    if Remaining(vs, p, |vs|) != 0 {
      var next := Round(vs, p, m, iterations, rnd);
      RoundConsistent(vs, p, m, iterations, rnd);
      RoundsUnfold(vs, p, m, rnd, iterations);
      if iterations <= Ceiling {
        RoundsConsistent(next.slots, next.proposals, m, rnd, iterations + 1);
      }
    }
  }

  /** Over the rounds of a cycle only task prices change in the table, and they never decrease. */
  lemma {:induction false} RoundsReprice(vs: seq<Slot>, p: seq<int>, m: MathLib, rnd: (nat, nat) -> nat, iterations: nat)
    requires |p| == |vs| && iterations <= Ceiling + 1
    ensures var c := Rounds(vs, p, m, rnd, iterations);
      Repricing(vs, c.slots) && forall t :: 0 <= t < |vs| ==> c.slots[t].taskPrice >= vs[t].taskPrice
    decreases Ceiling + 1 - iterations
  {
    var c := Rounds(vs, p, m, rnd, iterations);
    if Remaining(vs, p, |vs|) == 0 {
      forall t | 0 <= t < |vs| ensures vs[t] == vs[t].(taskPrice := vs[t].taskPrice) {}
    } else {
      var next := Round(vs, p, m, iterations, rnd);
      RoundReprices(vs, p, m, iterations, rnd);
      RoundsUnfold(vs, p, m, rnd, iterations);
      if iterations <= Ceiling {
        RoundsReprice(next.slots, next.proposals, m, rnd, iterations + 1);
        RepricingTrans(vs, next.slots, c.slots);
        forall t | 0 <= t < |vs| ensures c.slots[t].taskPrice >= vs[t].taskPrice {
          assert c.slots[t].taskPrice >= next.slots[t].taskPrice;
        }
      }
    }
  }

  /**
   * Over a whole cycle the proposals stay consistent, task prices never
   * decrease and nothing but prices changes in the table; a resolved cycle
   * leaves nobody waiting.
   */
  lemma RoundsInvariant(vs: seq<Slot>, p: seq<int>, m: MathLib, rnd: (nat, nat) -> nat, iterations: nat)
    requires Consistent(vs, p, m) && iterations <= Ceiling + 1
    ensures var c := Rounds(vs, p, m, rnd, iterations);
      && Consistent(c.slots, c.proposals, m)
      && Repricing(vs, c.slots)
      && (forall t :: 0 <= t < |vs| ==> c.slots[t].taskPrice >= vs[t].taskPrice)
      && (c.resolved ==> Remaining(c.slots, c.proposals, |vs|) == 0)
  {
    RoundsConsistent(vs, p, m, rnd, iterations);
    RoundsReprice(vs, p, m, rnd, iterations);
  }

  /** A round run with the counter past the ceiling ends the cycle unresolved, whatever it achieved. */
  lemma CeilingAbandonsCycle(vs: seq<Slot>, p: seq<int>, m: MathLib, rnd: (nat, nat) -> nat)
    requires |p| == |vs| && Remaining(vs, p, |vs|) > 0
    ensures !Rounds(vs, p, m, rnd, Ceiling + 1).resolved
    ensures Rounds(vs, p, m, rnd, Ceiling + 1).proposals == Round(vs, p, m, Ceiling + 1, rnd).proposals
  {
    RoundsUnfold(vs, p, m, rnd, Ceiling + 1);
  }

  /**
   * The assignment sent to proposer `i`: a task kept at home runs at the base
   * station (`home`) for free; otherwise it names the provider, its contract
   * price and its address.
   */
  function Assignment(vs: seq<Slot>, p: seq<int>, home: int, i: nat): (a: TaskAssignment)
    requires InRange(vs, p) && i < |vs| && p[i] != NoProposal
    ensures a.recipient == vs[i].address
  {
    var nodeId := p[i];
    if nodeId == i then TaskAssignment(vs[i].address, NoProposal, 0.0, home)
    else TaskAssignment(vs[i].address, nodeId, vs[nodeId].price, vs[nodeId].address)
  }

  /** The assignments for the proposers among the first `n` slots that hold a proposal, in slot order. */
  function Assignments(vs: seq<Slot>, p: seq<int>, home: int, n: nat): (r: seq<TaskAssignment>)
    requires InRange(vs, p) && n <= |vs|
    ensures |r| <= n
  {
    if n == 0 then []
    else
      Assignments(vs, p, home, n - 1) +
        (if p[n - 1] == NoProposal then [] else [Assignment(vs, p, home, n - 1)])
  }

  /** Every proposer holding a proposal gets its assignment, and every assignment is one of those. */
  lemma {:induction false} AssignmentsComplete(vs: seq<Slot>, p: seq<int>, home: int, n: nat)
    requires InRange(vs, p) && n <= |vs|
    ensures forall i :: 0 <= i < n && p[i] != NoProposal ==> Assignment(vs, p, home, i) in Assignments(vs, p, home, n)
    ensures forall a :: a in Assignments(vs, p, home, n) ==>
      exists i :: 0 <= i < n && p[i] != NoProposal && a == Assignment(vs, p, home, i)
  {
    if n > 0 {
      AssignmentsComplete(vs, p, home, n - 1);
    }
  }

  /**
   * With consistent proposals an assignment away from home names a feasible
   * provider other than the proposer and carries the provider's contract
   * price; a task kept at home is free and goes to the base station.
   */
  lemma AssignmentSound(vs: seq<Slot>, p: seq<int>, m: MathLib, home: int, i: nat)
    requires Consistent(vs, p, m) && i < |vs| && p[i] != NoProposal
    ensures var a := Assignment(vs, p, home, i);
      && (a.fogNodeId == NoProposal <==> p[i] == i)
      && (a.fogNodeId == NoProposal ==> a.price == 0.0 && a.address == home)
      && (a.fogNodeId != NoProposal ==>
            && a.fogNodeId == p[i] && a.fogNodeId != i
            && Feasible(vs, i, a.fogNodeId, m)
            && vs[a.fogNodeId].sharedResource != 0.0
            && a.price == vs[a.fogNodeId].price && a.address == vs[a.fogNodeId].address)
  {
  }

  /** The number of proposers among the first `n` that keep their task at home. */
  function AtHome(p: seq<int>, n: nat): (r: nat)
    requires n <= |p|
    ensures r <= n
  {
    if n == 0 then 0 else AtHome(p, n - 1) + (if p[n - 1] == n - 1 then 1 else 0)
  }

  /** The last proposer among the first `n` whose proposal is `t`, or -1 when there is none. */
  function LastProposer(p: seq<int>, t: int, n: nat): (r: int)
    requires n <= |p|
    ensures r == NoProposal <==> forall k :: 0 <= k < n ==> p[k] != t
    ensures r != NoProposal ==> 0 <= r < n && p[r] == t && forall k :: r < k < n ==> p[k] != t
  {
    if n == 0 then NoProposal
    else if p[n - 1] == t then n - 1
    else LastProposer(p, t, n - 1)
  }

  /** The table after the first `n` proposers have been dispatched: each provider records who proposed to it. */
  function Dispatched(vs: seq<Slot>, p: seq<int>, n: nat): (r: seq<Slot>)
    requires InRange(vs, p) && n <= |vs|
    ensures |r| == |vs|
  {
    if n == 0 then vs
    else
      var w := Dispatched(vs, p, n - 1);
      if p[n - 1] == NoProposal then w
      else w[p[n - 1] := w[p[n - 1]].(taskAssignedFrom := n - 1)]
  }

  /**
   * Dispatch only writes `taskAssignedFrom`, and each provider ends with the
   * last proposer that proposed to it (itself included), or keeps its old value.
   */
  lemma {:induction false} DispatchedRecordsLastProposer(vs: seq<Slot>, p: seq<int>, n: nat)
    requires InRange(vs, p) && n <= |vs|
    ensures var r := Dispatched(vs, p, n);
      forall t :: 0 <= t < |vs| ==>
        && r[t] == vs[t].(taskAssignedFrom := r[t].taskAssignedFrom)
        && r[t].taskAssignedFrom ==
             (if LastProposer(p, t, n) == NoProposal then vs[t].taskAssignedFrom else LastProposer(p, t, n))
  {
    if n > 0 {
      DispatchedRecordsLastProposer(vs, p, n - 1);
    }
  }

  /** Dispatch leaves every field of slot `t` but `taskAssignedFrom` alone. */
  lemma {:induction false} DispatchedKeepsSlot(vs: seq<Slot>, p: seq<int>, n: nat, t: nat)
    requires InRange(vs, p) && n <= |vs| && t < |vs|
    ensures Dispatched(vs, p, n)[t] == vs[t].(taskAssignedFrom := Dispatched(vs, p, n)[t].taskAssignedFrom)
  {
    if n > 0 {
      DispatchedKeepsSlot(vs, p, n - 1, t);
    }
  }

  /** The number of ready slots among the first `n`. */
  function ReadyCount(vs: seq<Slot>, n: nat): (r: nat)
    requires n <= |vs|
    ensures r <= n
  {
    if n == 0 then 0 else ReadyCount(vs, n - 1) + (if vs[n - 1].isTaskReady then 1 else 0)
  }

  /** At the start of a cycle every ready slot waits. */
  lemma {:induction false} InitiallyAllReadyWait(vs: seq<Slot>, n: nat)
    requires n <= |vs|
    ensures Remaining(vs, Unproposed(|vs|), n) == ReadyCount(vs, n)
  {
    if n > 0 {
      InitiallyAllReadyWait(vs, n - 1);
    }
  }

  /** Waiting counts only look at readiness, which repricing leaves alone. */
  lemma {:induction false} RemainingRepricing(vs: seq<Slot>, ws: seq<Slot>, p: seq<int>, n: nat)
    requires Repricing(vs, ws) && |p| == |vs| && n <= |vs|
    ensures Remaining(vs, p, n) == Remaining(ws, p, n)
  {
    if n > 0 {
      RemainingRepricing(vs, ws, p, n - 1);
      assert ws[n - 1] == vs[n - 1].(taskPrice := ws[n - 1].taskPrice);
    }
  }

  /** A slot that shares no resource is never chosen by anyone else. */
  lemma ZeroShareNeverChosen(vs: seq<Slot>, i: nat, j: nat, m: MathLib)
    requires i < |vs| && j < |vs| && i != j && vs[j].sharedResource == 0.0
    ensures Choice(vs, i, m) != j
  {
    ChoiceIsBestOffer(vs, i, m);
  }

  /** The cycle the base station runs over table `vs`. */
  function MatchCycle(vs: seq<Slot>, m: MathLib, rnd: (nat, nat) -> nat): (c: Cycle)
    ensures Consistent(c.slots, c.proposals, m) && Repricing(vs, c.slots)
    ensures c.resolved ==> Remaining(c.slots, c.proposals, |vs|) == 0
    ensures forall t :: 0 <= t < |vs| ==> c.slots[t].taskPrice >= vs[t].taskPrice
  {
    RoundsInvariant(vs, Unproposed(|vs|), m, rnd, 0);
    Rounds(vs, Unproposed(|vs|), m, rnd, 0)
  }

  /** The result of a matching cycle: the assignments sent, or failure at the ceiling. */
  datatype Outcome = Matched(assignments: seq<TaskAssignment>) | Failed

  function CycleOutcome(vs: seq<Slot>, m: MathLib, rnd: (nat, nat) -> nat, home: int): Outcome
  {
    var c := MatchCycle(vs, m, rnd);
    if c.resolved then Matched(Assignments(c.slots, c.proposals, home, |vs|)) else Failed
  }

  /** The table after a cycle: repriced, and on success with the providers' `taskAssignedFrom` written. */
  function CycleTable(vs: seq<Slot>, m: MathLib, rnd: (nat, nat) -> nat): seq<Slot>
  {
    var c := MatchCycle(vs, m, rnd);
    if c.resolved then Dispatched(c.slots, c.proposals, |vs|) else c.slots
  }

  /** How many tasks a cycle sends to the base station itself. */
  function CycleHomeTasks(vs: seq<Slot>, m: MathLib, rnd: (nat, nat) -> nat): nat
  {
    var c := MatchCycle(vs, m, rnd);
    if c.resolved then AtHome(c.proposals, |vs|) else 0
  }

  /**
   * A successful cycle gives every ready slot exactly one assignment and the
   * others none, each sound; a failed one sends nothing and records no
   * assignment in the table.
   */
  lemma CycleOutcomeSound(vs: seq<Slot>, m: MathLib, rnd: (nat, nat) -> nat, home: int)
    ensures var c := MatchCycle(vs, m, rnd);
      c.resolved ==>
        && CycleOutcome(vs, m, rnd, home).Matched?
        && (forall i :: 0 <= i < |vs| ==> (c.proposals[i] != NoProposal <==> vs[i].isTaskReady))
        && (forall i :: 0 <= i < |vs| && vs[i].isTaskReady ==>
              Assignment(c.slots, c.proposals, home, i) in CycleOutcome(vs, m, rnd, home).assignments)
        && (forall a :: a in CycleOutcome(vs, m, rnd, home).assignments ==>
              exists i :: 0 <= i < |vs| && vs[i].isTaskReady && a == Assignment(c.slots, c.proposals, home, i))
    ensures var c := MatchCycle(vs, m, rnd);
      !c.resolved ==> CycleOutcome(vs, m, rnd, home) == Failed && CycleTable(vs, m, rnd) == c.slots
  {
    var c := MatchCycle(vs, m, rnd);
    if c.resolved {
      RemainingZero(c.slots, c.proposals, |vs|);
      AssignmentsComplete(c.slots, c.proposals, home, |vs|);
      forall i | 0 <= i < |vs|
        ensures c.slots[i].isTaskReady == vs[i].isTaskReady
        ensures c.proposals[i] != NoProposal <==> vs[i].isTaskReady
      {
        assert c.slots[i] == vs[i].(taskPrice := c.slots[i].taskPrice);
        assert !Waiting(c.slots, c.proposals, i);
      }
    }
  }

  /**
   * After dispatch, a provider that was proposed to routes completions back
   * to a proposer whose proposal it holds.
   */
  lemma CompletionReturnsToProposer(vs: seq<Slot>, p: seq<int>, t: nat)
    requires InRange(vs, p) && t < |vs|
    requires exists k :: 0 <= k < |vs| && p[k] == t
    ensures var from := Dispatched(vs, p, |vs|)[t].taskAssignedFrom;
      0 <= from < |vs| && p[from] == t &&
      Dispatched(vs, p, |vs|)[from].address == vs[from].address
  {
    DispatchedRecordsLastProposer(vs, p, |vs|);
    var from := LastProposer(p, t, |vs|);
    assert from != NoProposal;
    var r := Dispatched(vs, p, |vs|);
    assert r[from] == vs[from].(taskAssignedFrom := r[from].taskAssignedFrom);
  }
}
