/** The simulation driver of the Galton board: two periodic callbacks that
    feed balls in at the top of the peg grid and take them out, with their
    coordinates logged, once they fall past the exit level, and the stop
    check that pauses the run and dumps the log when every ball fed in has
    been taken out. The physics engine is abstracted: the bodies are a
    sequence of values whose positions the engine moves between callbacks. */
module GaltonBoard {

  // System parameters.
  const TotalNumberOfBalls: nat := 1000
  const XRange: int := 15
  const YRange: int := 10
  const Spacing: real := 1.0
  const RObstacle: real := 0.25
  const RBalls: real := 0.1
  const SavePeriod: int := 10000

  /** A ball is taken out once its y-coordinate is below this level, half a
      spacing under the lowest row of pegs. */
  const ExitLevel: real := -(YRange as real) * Spacing + Spacing / 2.0

  datatype Vec3 = Vec3(x: real, y: real, z: real)

  /** The degrees of freedom the engine holds still: translation along x, y
      and z and rotation about X, Y and Z. */
  datatype Dofs = Dofs(x: bool, y: bool, z: bool, rotX: bool, rotY: bool, rotZ: bool)

  /** A spawned ball keeps to the board's plane and turns only about Z
      (the engine's "zXY"). */
  const BallDofs: Dofs := Dofs(false, false, true, true, true, false)

  /** A body of the engine: the scenery (pegs and walls) is fixed, balls are
      not. */
  datatype Body = Body(id: nat, pos: Vec3, radius: real, fixed: bool, blockedDOFs: Dofs)

  /** One row of the deletion log: the iteration and the position. */
  datatype DeletedRow = DeletedRow(iter: int, x: real, y: real, z: real)

  /** The parameter vector written next to the log. */
  datatype SimParameters = SimParameters(
    xRange: int, yRange: int, spacing: real, rObstacle: real, rBalls: real,
    totalNumberOfBalls: int, xMax: real, xMin: real, savePeriod: int, iter: int)

  /** What one dump writes: the log and the parameters. */
  datatype Dump = Dump(coords: seq<DeletedRow>, params: SimParameters)

  /** Body `b` has fallen below the exit level. */
  predicate Exits(b: Body)
  {
    b.pos.y < ExitLevel
  }

  /** `lo <= x < hi`: the range a uniform draw on [lo, hi) lands in. */
  predicate Within(x: real, lo: real, hi: real)
  {
    lo <= x < hi
  }

  /** The bodies a scan of the first `n` bodies of `bs` leaves in place,
      in order. */
  function Kept(bs: seq<Body>, n: nat): (r: seq<Body>)
    requires n <= |bs|
    ensures |r| <= n
  {
    if n == 0 then []
    else Kept(bs, n - 1) + (if Exits(bs[n - 1]) then [] else [bs[n - 1]])
  }

  /** The log rows a scan of the first `n` bodies of `bs` at iteration
      `iter` appends, in order. */
  function Logged(iter: int, bs: seq<Body>, n: nat): (r: seq<DeletedRow>)
    requires n <= |bs|
    ensures |r| <= n
  {
    if n == 0 then []
    else
      var b := bs[n - 1];
      Logged(iter, bs, n - 1) + (if Exits(b) then [DeletedRow(iter, b.pos.x, b.pos.y, b.pos.z)] else [])
  }

  /** The bodies a full scan of `bs` leaves in place. */
  function Survivors(bs: seq<Body>): (r: seq<Body>)
    ensures |r| <= |bs|
  {
    Kept(bs, |bs|)
  }

  /** The log rows a full scan of `bs` at iteration `iter` appends. */
  function ExitRows(iter: int, bs: seq<Body>): (r: seq<DeletedRow>)
    ensures |r| <= |bs|
  {
    Logged(iter, bs, |bs|)
  }

  /** The number of balls (bodies that are not fixed) among the first `n`
      bodies of `bs`. */
  function BallsIn(bs: seq<Body>, n: nat): (c: nat)
    requires n <= |bs|
    ensures c <= n
  {
    if n == 0 then 0 else BallsIn(bs, n - 1) + (if bs[n - 1].fixed then 0 else 1)
  }

  /** The number of balls in `bs`. */
  function Balls(bs: seq<Body>): (c: nat)
    ensures c <= |bs|
  {
    BallsIn(bs, |bs|)
  }

  /** The first `n` bodies of `bs` with the body numbered `id` erased. */
  function Erased(bs: seq<Body>, id: nat, n: nat): (r: seq<Body>)
    requires n <= |bs|
    ensures |r| <= n
  {
    if n == 0 then []
    else Erased(bs, id, n - 1) + (if bs[n - 1].id == id then [] else [bs[n - 1]])
  }

  /** `bs` with the body numbered `id` erased. */
  function RemoveId(bs: seq<Body>, id: nat): (r: seq<Body>)
    ensures |r| <= |bs|
  {
    Erased(bs, id, |bs|)
  }

  /** The bodies after the engine has moved them to `ps`. */
  function Moved(bs: seq<Body>, ps: seq<Vec3>): seq<Body>
    requires |ps| == |bs|
  {
    seq(|bs|, i requires 0 <= i < |bs| => bs[i].(pos := ps[i]))
  }

  /** Body ids strictly increase along the sequence (the engine numbers
      bodies in the order they are added), so no id occurs twice. */
  ghost predicate IdsIncreasing(bs: seq<Body>)
  {
    forall i, j {:trigger Before(bs[i], bs[j])} :: 0 <= i < j < |bs| ==> Before(bs[i], bs[j])
  }

  /** Body `a` was added to the engine before body `b`. */
  predicate Before(a: Body, b: Body)
  {
    a.id < b.id
  }

  lemma IdsOrdered(bs: seq<Body>, i: nat, j: nat)
    requires IdsIncreasing(bs) && i < j < |bs|
    ensures bs[i].id < bs[j].id
  {
    assert Before(bs[i], bs[j]);
  }

  /** Every body of `bs` is numbered below `next`. */
  ghost predicate IdsBelow(bs: seq<Body>, next: nat)
  {
    forall i :: 0 <= i < |bs| ==> bs[i].id < next
  }

  /** The scenery lies above the exit level. */
  ghost predicate SceneryAbove(bs: seq<Body>)
  {
    forall i :: 0 <= i < |bs| && bs[i].fixed ==> !Exits(bs[i])
  }

  /** Every log row lies below the exit level. */
  ghost predicate RowsBelow(rows: seq<DeletedRow>)
  {
    forall k :: 0 <= k < |rows| ==> rows[k].y < ExitLevel
  }

  /** The log is ordered in time: its iterations never decrease from one
      row to the next, and none is later than the iteration `now`. */
  ghost predicate LogOrdered(rows: seq<DeletedRow>, now: int)
  {
    && (forall k :: 0 <= k < |rows| ==> rows[k].iter <= now)
    && (forall j, k :: 0 <= j < k < |rows| ==> rows[j].iter <= rows[k].iter)
  }

  /** Appending rows that all carry the current iteration keeps the log
      ordered in time. */
  lemma LogOrderedAppend(rows: seq<DeletedRow>, added: seq<DeletedRow>, now: int)
    requires LogOrdered(rows, now)
    requires forall k :: 0 <= k < |added| ==> added[k].iter == now
    ensures LogOrdered(rows + added, now)
  {
    var all := rows + added;
    forall j, k | 0 <= j < k < |all|
      ensures all[j].iter <= all[k].iter
    {
      if k >= |rows| {
        assert all[k] == added[k - |rows|];
        if j >= |rows| {
          assert all[j] == added[j - |rows|];
        } else {
          assert all[j] == rows[j];
        }
      } else {
        assert all[j] == rows[j] && all[k] == rows[k];
      }
    }
    forall k | 0 <= k < |all|
      ensures all[k].iter <= now
    {
      if k >= |rows| {
        assert all[k] == added[k - |rows|];
      } else {
        assert all[k] == rows[k];
      }
    }
  }

  lemma RowsBelowConcat(a: seq<DeletedRow>, b: seq<DeletedRow>)
    requires RowsBelow(a) && RowsBelow(b)
    ensures RowsBelow(a + b)
  {
    forall k | 0 <= k < |a + b|
      ensures (a + b)[k].y < ExitLevel
    {
      if k >= |a| {
        assert (a + b)[k] == b[k - |a|];
      }
    }
  }

  // ---------------------------------------------------------------------
  // Properties of the scan
  // ---------------------------------------------------------------------

  /** A body survives a scan of the first `n` bodies exactly when it is
      one of them and does not exit: the scan removes exactly the bodies
      below the exit level. */
  lemma {:induction false} KeptMembers(bs: seq<Body>, n: nat, b: Body)
    requires n <= |bs|
    ensures b in Kept(bs, n) <==> b in bs[..n] && !Exits(b)
  {
    if n > 0 {
      KeptMembers(bs, n - 1, b);
      assert bs[..n] == bs[..n - 1] + [bs[n - 1]];
    }
  }

  /** The survivors keep their relative order: ids still increase. */
  lemma {:induction false} KeptIdsIncreasing(bs: seq<Body>, n: nat)
    requires n <= |bs| && IdsIncreasing(bs)
    ensures IdsIncreasing(Kept(bs, n))
  {
    if n > 0 {
      KeptIdsIncreasing(bs, n - 1);
      if !Exits(bs[n - 1]) {
        var s := Kept(bs, n - 1);
        var t := s + [bs[n - 1]];
        forall i, j | 0 <= i < j < |t|
          ensures Before(t[i], t[j])
        {
          if j < |s| {
            assert Before(s[i], s[j]);
          } else {
            KeptMembers(bs, n - 1, s[i]);
            var m :| 0 <= m < n - 1 && bs[m] == s[i];
            IdsOrdered(bs, m, n - 1);
          }
        }
      }
    }
  }

  /** A scan appends one log row per body it removes. */
  lemma {:induction false} ScanCount(iter: int, bs: seq<Body>, n: nat)
    requires n <= |bs|
    ensures |Kept(bs, n)| + |Logged(iter, bs, n)| == n
  {
    if n > 0 {
      ScanCount(iter, bs, n - 1);
    }
  }

  /** Row k of the log a scan appends records, at the scan's iteration, the
      position of the body the scan removes after exactly k others: rows
      come one per removed body, in scan order. */
  lemma {:induction false} LoggedAt(iter: int, bs: seq<Body>, n: nat, k: nat)
    requires n <= |bs| && k < |Logged(iter, bs, n)|
    ensures exists i :: (0 <= i < n && Exits(bs[i]) && |Logged(iter, bs, i)| == k
                         && Logged(iter, bs, n)[k] == DeletedRow(iter, bs[i].pos.x, bs[i].pos.y, bs[i].pos.z))
  {
    if k < |Logged(iter, bs, n - 1)| {
      LoggedAt(iter, bs, n - 1, k);
    } else {
      assert Exits(bs[n - 1]);
      assert |Logged(iter, bs, n - 1)| == k;
    }
  }

  /** Every row a scan logs lies below the exit level and carries the scan's
      iteration. */
  lemma {:induction false} LoggedBelow(iter: int, bs: seq<Body>, n: nat)
    requires n <= |bs|
    ensures forall k :: 0 <= k < |Logged(iter, bs, n)| ==>
              Logged(iter, bs, n)[k].y < ExitLevel && Logged(iter, bs, n)[k].iter == iter
  {
    if n > 0 {
      LoggedBelow(iter, bs, n - 1);
    }
  }

  /** Counting the first `m` bodies looks at those bodies only. */
  lemma {:induction false} BallsAgree(a: seq<Body>, b: seq<Body>, m: nat)
    requires m <= |a| && m <= |b|
    requires forall k :: 0 <= k < m ==> a[k].fixed == b[k].fixed
    ensures BallsIn(a, m) == BallsIn(b, m)
  {
    if m > 0 {
      BallsAgree(a, b, m - 1);
    }
  }

  lemma BallsSnoc(bs: seq<Body>, b: Body)
    ensures Balls(bs + [b]) == Balls(bs) + (if b.fixed then 0 else 1)
  {
    BallsAgree(bs + [b], bs, |bs|);
  }

  /** When the scenery lies above the exit level, every body the scan removes
      is a ball: the balls among the scanned bodies are the surviving balls
      plus one per new log row. */
  lemma {:induction false} ScanBalls(iter: int, bs: seq<Body>, n: nat)
    requires n <= |bs| && SceneryAbove(bs)
    ensures BallsIn(bs, n) == Balls(Kept(bs, n)) + |Logged(iter, bs, n)|
  {
    if n > 0 {
      var last := bs[n - 1];
      ScanBalls(iter, bs, n - 1);
      if !Exits(last) {
        BallsSnoc(Kept(bs, n - 1), last);
      } else {
        assert Kept(bs, n) == Kept(bs, n - 1) + [] == Kept(bs, n - 1);
      }
    }
  }

  /** A scan of the first `m` bodies sees only those bodies. */
  lemma {:induction false} ScanAgree(iter: int, a: seq<Body>, b: seq<Body>, m: nat)
    requires m <= |a| && m <= |b| && a[..m] == b[..m]
    ensures Kept(a, m) == Kept(b, m) && Logged(iter, a, m) == Logged(iter, b, m)
  {
    if m > 0 {
      assert a[m - 1] == a[..m][m - 1] == b[..m][m - 1] == b[m - 1];
      assert a[..m - 1] == a[..m][..m - 1] == b[..m][..m - 1] == b[..m - 1];
      ScanAgree(iter, a, b, m - 1);
    }
  }

  /** Scanning one more body that does not exit keeps it and logs nothing
      for it. */
  lemma ScanSnoc(iter: int, s: seq<Body>, x: Body)
    requires !Exits(x)
    ensures Kept(s + [x], |s| + 1) == Kept(s, |s|) + [x]
    ensures Logged(iter, s + [x], |s| + 1) == Logged(iter, s, |s|)
  {
    var t := s + [x];
    assert t[..|s|] == s[..|s|];
    ScanAgree(iter, t, s, |s|);
    assert Logged(iter, t, |t|) == Logged(iter, t, |s|) + [];
  }

  /** After a scan nothing left exits: scanning the survivors again keeps all
      of them and logs nothing. */
  lemma {:induction false} KeptIdempotent(iter: int, bs: seq<Body>, n: nat)
    requires n <= |bs|
    ensures Kept(Kept(bs, n), |Kept(bs, n)|) == Kept(bs, n)
    ensures Logged(iter, Kept(bs, n), |Kept(bs, n)|) == []
  {
    if n > 0 {
      var s := Kept(bs, n - 1);
      var x := bs[n - 1];
      KeptIdempotent(iter, bs, n - 1);
      if !Exits(x) {
        ScanSnoc(iter, s, x);
        assert Kept(bs, n) == s + [x];
      } else {
        assert Kept(bs, n) == s + [] == s;
      }
    }
  }

  /** A second scan with no engine step between removes and logs nothing. */
  lemma ScanIdempotent(iter: int, bs: seq<Body>)
    ensures Survivors(Survivors(bs)) == Survivors(bs)
    ensures ExitRows(iter, Survivors(bs)) == []
  {
    KeptIdempotent(iter, bs, |bs|);
  }

  /** Moving bodies neither adds nor removes a ball. */
  lemma BallsMoved(bs: seq<Body>, ps: seq<Vec3>)
    requires |ps| == |bs|
    ensures Balls(Moved(bs, ps)) == Balls(bs)
  {
    BallsAgree(Moved(bs, ps), bs, |bs|);
  }

  /** Erasing an id none of the first `n` bodies carries keeps them all. */
  lemma {:induction false} ErasedAbsent(bs: seq<Body>, id: nat, n: nat)
    requires n <= |bs|
    requires forall k :: 0 <= k < n ==> bs[k].id != id
    ensures Erased(bs, id, n) == bs[..n]
  {
    if n > 0 {
      ErasedAbsent(bs, id, n - 1);
      assert bs[..n] == bs[..n - 1] + [bs[n - 1]];
    }
  }

  /** Erasing from the first `m` bodies looks at those bodies only. */
  lemma {:induction false} ErasedAgree(a: seq<Body>, b: seq<Body>, id: nat, m: nat)
    requires m <= |a| && m <= |b| && a[..m] == b[..m]
    ensures Erased(a, id, m) == Erased(b, id, m)
  {
    if m > 0 {
      assert a[m - 1] == a[..m][m - 1] == b[..m][m - 1] == b[m - 1];
      assert a[..m - 1] == a[..m][..m - 1] == b[..m][..m - 1] == b[..m - 1];
      ErasedAgree(a, b, id, m - 1);
    }
  }

  /** Erasing from a concatenation past its first part erases in each part
      separately. */
  lemma {:induction false} ErasedConcat(a: seq<Body>, b: seq<Body>, id: nat, m: nat)
    requires m <= |b|
    ensures Erased(a + b, id, |a| + m) == Erased(a, id, |a|) + Erased(b, id, m)
  {
    if m == 0 {
      assert (a + b)[..|a|] == a[..|a|];
      ErasedAgree(a + b, a, id, |a|);
    } else {
      ErasedConcat(a, b, id, m - 1);
      assert (a + b)[|a| + m - 1] == b[m - 1];
    }
  }

  /** Erasing works piecewise on a concatenation. */
  lemma RemoveIdConcat(a: seq<Body>, b: seq<Body>, id: nat)
    ensures RemoveId(a + b, id) == RemoveId(a, id) + RemoveId(b, id)
  {
    ErasedConcat(a, b, id, |b|);
  }

  /** Erasing an id no body carries changes nothing. */
  lemma RemoveIdAbsent(bs: seq<Body>, id: nat)
    requires forall k :: 0 <= k < |bs| ==> bs[k].id != id
    ensures RemoveId(bs, id) == bs
  {
    ErasedAbsent(bs, id, |bs|);
  }

  /** No body a scan of the first `i` bodies keeps carries the id of body
      `i`, because ids increase. */
  lemma KeptBelow(snapshot: seq<Body>, i: nat)
    requires i < |snapshot| && IdsIncreasing(snapshot)
    ensures RemoveId(Kept(snapshot, i), snapshot[i].id) == Kept(snapshot, i)
  {
    var done := Kept(snapshot, i);
    forall k | 0 <= k < |done|
      ensures done[k].id != snapshot[i].id
    {
      KeptMembers(snapshot, i, done[k]);
      var m :| 0 <= m < i && snapshot[m] == done[k];
      IdsOrdered(snapshot, m, i);
    }
    RemoveIdAbsent(done, snapshot[i].id);
  }

  /** Erasing body `i`'s id from the bodies from `i` on drops exactly body
      `i`, because ids increase. */
  lemma EraseHead(snapshot: seq<Body>, i: nat)
    requires i < |snapshot| && IdsIncreasing(snapshot)
    ensures RemoveId(snapshot[i..], snapshot[i].id) == snapshot[i + 1..]
  {
    var id := snapshot[i].id;
    var rest := snapshot[i + 1..];
    assert snapshot[i..] == [snapshot[i]] + rest;
    forall k | 0 <= k < |rest|
      ensures rest[k].id != id
    {
      assert rest[k] == snapshot[i + 1 + k];
      IdsOrdered(snapshot, i, i + 1 + k);
    }
    RemoveIdAbsent(rest, id);
    RemoveIdConcat([snapshot[i]], rest, id);
    assert RemoveId([snapshot[i]], id) == [];
  }

  /** Erasing the body at the scan position from "survivors so far, then the
      bodies not yet scanned" drops exactly that body. */
  lemma EraseScanned(snapshot: seq<Body>, i: nat)
    requires i < |snapshot| && IdsIncreasing(snapshot)
    ensures RemoveId(Kept(snapshot, i) + snapshot[i..], snapshot[i].id)
            == Kept(snapshot, i) + snapshot[i + 1..]
  {
    KeptBelow(snapshot, i);
    EraseHead(snapshot, i);
    RemoveIdConcat(Kept(snapshot, i), snapshot[i..], snapshot[i].id);
  }

  /** One step of the scan over `snapshot` at position `i`: the bodies not
      yet erased and the log grow from the state after `i` bodies to the
      state after `i + 1`. */
  lemma ScanStep(iter: int, snapshot: seq<Body>, i: nat, log0: seq<DeletedRow>)
    requires i < |snapshot| && IdsIncreasing(snapshot)
    ensures var b := snapshot[i];
            Exits(b) ==>
              && RemoveId(Kept(snapshot, i) + snapshot[i..], b.id) == Kept(snapshot, i + 1) + snapshot[i + 1..]
              && log0 + Logged(iter, snapshot, i) + [DeletedRow(iter, b.pos.x, b.pos.y, b.pos.z)]
                 == log0 + Logged(iter, snapshot, i + 1)
    ensures !Exits(snapshot[i]) ==>
              && Kept(snapshot, i) + snapshot[i..] == Kept(snapshot, i + 1) + snapshot[i + 1..]
              && log0 + Logged(iter, snapshot, i) == log0 + Logged(iter, snapshot, i + 1)
  {
    var b := snapshot[i];
    if Exits(b) {
      EraseScanned(snapshot, i);
      assert Kept(snapshot, i + 1) == Kept(snapshot, i) + [] == Kept(snapshot, i);
    } else {
      assert snapshot[i..] == [b] + snapshot[i + 1..];
      assert Logged(iter, snapshot, i + 1) == Logged(iter, snapshot, i) + [] == Logged(iter, snapshot, i);
    }
  }

  /** There is no ball among the bodies exactly when every body is fixed. */
  lemma {:induction false} NoBallsIn(bs: seq<Body>, n: nat)
    requires n <= |bs|
    ensures BallsIn(bs, n) == 0 <==> forall i :: 0 <= i < n ==> bs[i].fixed
  {
    if n > 0 {
      NoBallsIn(bs, n - 1);
    }
  }

  lemma NoBalls(bs: seq<Body>)
    ensures Balls(bs) == 0 <==> forall i :: 0 <= i < |bs| ==> bs[i].fixed
  {
    NoBallsIn(bs, |bs|);
  }

  /** Appending a fresh ball numbered `next` keeps the bodies numbered in
      order and below the next id, keeps the scenery where it is, and adds
      one ball. */
  lemma AppendBall(bs: seq<Body>, next: nat, ball: Body)
    requires IdsIncreasing(bs) && IdsBelow(bs, next) && SceneryAbove(bs)
    requires ball.id == next && !ball.fixed
    ensures IdsIncreasing(bs + [ball]) && IdsBelow(bs + [ball], next + 1) && SceneryAbove(bs + [ball])
    ensures Balls(bs + [ball]) == Balls(bs) + 1
  {
    BallsSnoc(bs, ball);
    var t := bs + [ball];
    forall i, j | 0 <= i < j < |t|
      ensures Before(t[i], t[j])
    {
      if j < |bs| {
        assert Before(bs[i], bs[j]);
      }
    }
  }

  /** Moving the bodies keeps their ids, the balls among them and, when the
      scenery stays put, the scenery above the exit level. */
  lemma MoveKeeps(bs: seq<Body>, ps: seq<Vec3>, next: nat)
    requires |ps| == |bs| && IdsIncreasing(bs) && IdsBelow(bs, next) && SceneryAbove(bs)
    requires forall i :: 0 <= i < |bs| && bs[i].fixed ==> ps[i] == bs[i].pos
    ensures IdsIncreasing(Moved(bs, ps)) && IdsBelow(Moved(bs, ps), next) && SceneryAbove(Moved(bs, ps))
    ensures Balls(Moved(bs, ps)) == Balls(bs)
  {
    BallsMoved(bs, ps);
    var t := Moved(bs, ps);
    forall i, j | 0 <= i < j < |t|
      ensures Before(t[i], t[j])
    {
      assert Before(bs[i], bs[j]);
    }
  }

  /** With the scenery above the exit level and no ball left, a scan logs
      nothing. */
  lemma NothingExits(iter: int, bs: seq<Body>)
    requires SceneryAbove(bs) && Balls(bs) == 0
    ensures ExitRows(iter, bs) == []
  {
    ScanBalls(iter, bs, |bs|);
  }

  /** The survivors of a scan stay numbered in order and below the next id,
      and any scenery among them stays above the exit level; every ball the
      scan takes out is one more log row, and every row lies below the exit
      level. */
  lemma ScanKeeps(iter: int, bs: seq<Body>, next: nat)
    requires IdsIncreasing(bs) && IdsBelow(bs, next) && SceneryAbove(bs)
    ensures IdsIncreasing(Survivors(bs)) && IdsBelow(Survivors(bs), next) && SceneryAbove(Survivors(bs))
    ensures Balls(bs) == Balls(Survivors(bs)) + |ExitRows(iter, bs)|
    ensures RowsBelow(ExitRows(iter, bs))
  {
    ScanBalls(iter, bs, |bs|);
    KeptIdsIncreasing(bs, |bs|);
    LoggedBelow(iter, bs, |bs|);
    var s := Survivors(bs);
    forall k | 0 <= k < |s|
      ensures s[k] in bs && !Exits(s[k])
    {
      KeptMembers(bs, |bs|, s[k]);
    }
  }

  /** The state the callbacks share: the global ball counter, the global
      deletion log, the engine's bodies (in id order, erased ones gone), the
      engine's iteration counter and run state, and the dumps written so far.
      `xMin` and `xMax` are the extremes of the scenery along x. */
  class Simulation {
    const xMin: real
    const xMax: real
    var ballCounter: nat
    var deletedParticleCoors: seq<DeletedRow>
    var bodies: seq<Body>
    var nextId: nat
    var iter: nat
    var paused: bool
    var dumps: seq<Dump>

    /** Every ball fed in is either still among the bodies or logged, never
        more than the total are fed in, the engine numbers bodies in order,
        the scenery stays above the exit level, every logged row lies
        below it, and the log is ordered in time up to the current
        iteration. A run is paused only once every ball fed in is logged, and
        then it has written exactly one dump, which holds the whole log and
        the parameters of the current iteration. */
    ghost predicate Valid()
      reads this
    {
      && ballCounter <= TotalNumberOfBalls
      && ballCounter == |deletedParticleCoors| + Balls(bodies)
      && IdsIncreasing(bodies)
      && IdsBelow(bodies, nextId)
      && SceneryAbove(bodies)
      && RowsBelow(deletedParticleCoors)
      && LogOrdered(deletedParticleCoors, iter)
      && (paused ==> ballCounter == |deletedParticleCoors|)
      && dumps == if paused then [Dump(deletedParticleCoors, Parameters())] else []
    }

    /** The parameter vector dumped beside the log. */
    function Parameters(): SimParameters
      reads this
    {
      SimParameters(XRange, YRange, Spacing, RObstacle, RBalls,
                    TotalNumberOfBalls, xMax, xMin, SavePeriod, iter)
    }

    /** `b` is a ball freshly spawned with id `id`: a sphere of radius
        `RBalls` dropped at height `Spacing` on the plane z = 0, at an x drawn
        from the quarter-spacing band either side of the middle of the board,
        with z motion and x and y rotation blocked. */
    predicate Spawned(b: Body, id: nat)
    {
      var mid := (xMax + xMin) / 2.0;
      && b == Body(id, Vec3(b.pos.x, Spacing, 0.0), RBalls, false, BallDofs)
      && Within(b.pos.x, mid - Spacing / 4.0, mid + Spacing / 4.0)
    }

    /** A board holding only the given scenery, numbered in insertion order
        and lying above the exit level, before the first iteration. */
    constructor (scenery: seq<Body>, xMin: real, xMax: real)
      requires forall i :: 0 <= i < |scenery| ==> scenery[i].id == i && scenery[i].fixed && !Exits(scenery[i])
      ensures Valid()
      ensures this.xMin == xMin && this.xMax == xMax
      ensures bodies == scenery && nextId == |scenery| && iter == 0
      ensures ballCounter == 0 && deletedParticleCoors == [] && !paused && dumps == []
    {
      this.xMin := xMin;
      this.xMax := xMax;
      ballCounter := 0;
      deletedParticleCoors := [];
      bodies := scenery;
      nextId := |scenery|;
      iter := 0;
      paused := false;
      dumps := [];
      NoBalls(scenery);
    }

    /** Pause the run and dump the log when every ball fed in has been
        logged; otherwise change nothing. */
    method StopSimulation()
      requires Valid() && !paused
      modifies this
      ensures Valid()
      ensures paused <==> old(ballCounter == |deletedParticleCoors|)
      ensures dumps == if old(ballCounter == |deletedParticleCoors|)
                       then old(dumps) + [Dump(deletedParticleCoors, Parameters())]
                       else old(dumps)
      ensures paused ==> forall i :: 0 <= i < |bodies| ==> bodies[i].fixed
      ensures ballCounter == old(ballCounter) && deletedParticleCoors == old(deletedParticleCoors)
      ensures bodies == old(bodies) && nextId == old(nextId) && iter == old(iter)
    {
      if ballCounter == |deletedParticleCoors| {
        paused := true;
        dumps := dumps + [Dump(deletedParticleCoors, Parameters())];
        NoBalls(bodies);
      }
    }

    /** Feed one ball in while fewer than the total have been fed in;
        otherwise run the stop check. */
    method CreateParticle()
      requires Valid() && !paused
      modifies this
      ensures Valid()
      ensures old(ballCounter) < TotalNumberOfBalls ==>
                && ballCounter == old(ballCounter) + 1
                && |bodies| == old(|bodies|) + 1
                && bodies[..old(|bodies|)] == old(bodies)
                && Spawned(bodies[old(|bodies|)], old(nextId))
                && nextId == old(nextId) + 1
                && paused == old(paused) && dumps == old(dumps)
      ensures old(ballCounter) == TotalNumberOfBalls ==>
                && ballCounter == old(ballCounter) && bodies == old(bodies) && nextId == old(nextId)
                && (paused <==> old(ballCounter == |deletedParticleCoors|))
                && dumps == if old(ballCounter == |deletedParticleCoors|)
                            then old(dumps) + [Dump(deletedParticleCoors, Parameters())]
                            else old(dumps)
      ensures paused ==>
                && ballCounter == TotalNumberOfBalls == |deletedParticleCoors|
                && forall i :: 0 <= i < |bodies| ==> bodies[i].fixed
      ensures deletedParticleCoors == old(deletedParticleCoors) && iter == old(iter)
    {
      if ballCounter < TotalNumberOfBalls {
        var mid := (xMax + xMin) / 2.0;
        assert Within(mid - Spacing / 4.0, mid - Spacing / 4.0, mid + Spacing / 4.0);
        var x :| Within(x, mid - Spacing / 4.0, mid + Spacing / 4.0);
        var ball := Body(nextId, Vec3(x, Spacing, 0.0), RBalls, false, BallDofs);
        AppendBall(bodies, nextId, ball);
        bodies := bodies + [ball];
        nextId := nextId + 1;
        ballCounter := ballCounter + 1;
        assert paused == old(paused);
      } else {
        StopSimulation();
        assert ballCounter == TotalNumberOfBalls;
      }
    }

    /** Scan the bodies in order and take out, logging its iteration and
        position, every body that has fallen below the exit level (the loop
        is `EraseExited`). Once the run is paused no ball is left, so the
        scan logs nothing and the dump stays complete. */
    method DeletionBoundary()
      requires Valid()
      modifies this
      ensures Valid()
      ensures bodies == Survivors(old(bodies))
      ensures deletedParticleCoors == old(deletedParticleCoors) + ExitRows(iter, old(bodies))
      ensures ballCounter == old(ballCounter) && nextId == old(nextId) && iter == old(iter)
      ensures paused == old(paused) && dumps == old(dumps)
      ensures old(paused) ==> deletedParticleCoors == old(deletedParticleCoors)
    {
      ghost var snapshot := bodies;
      EraseExited();
      ScanKeeps(iter, snapshot, nextId);
      RowsBelowConcat(old(deletedParticleCoors), ExitRows(iter, snapshot));
      LoggedBelow(iter, snapshot, |snapshot|);
      LogOrderedAppend(old(deletedParticleCoors), ExitRows(iter, snapshot), iter);
      if paused {
        NothingExits(iter, snapshot);
        assert deletedParticleCoors == old(deletedParticleCoors) + [];
        assert deletedParticleCoors == old(deletedParticleCoors);
        assert Parameters() == old(Parameters());
      }
    }

    /** The loop of deletion_boundary: walk the bodies present when the scan
        starts, and erase and log each one that has fallen below the exit
        level, in turn. */
    method EraseExited()
      requires IdsIncreasing(bodies)
      modifies this
      ensures bodies == Survivors(old(bodies))
      ensures deletedParticleCoors == old(deletedParticleCoors) + ExitRows(iter, old(bodies))
      ensures ballCounter == old(ballCounter) && nextId == old(nextId) && iter == old(iter)
      ensures paused == old(paused) && dumps == old(dumps)
    {
      var snapshot := bodies;
      for i := 0 to |snapshot|
        invariant bodies == Kept(snapshot, i) + snapshot[i..]
        invariant deletedParticleCoors == old(deletedParticleCoors) + Logged(iter, snapshot, i)
        invariant ballCounter == old(ballCounter) && nextId == old(nextId) && iter == old(iter)
        invariant paused == old(paused) && dumps == old(dumps)
      {
        var b := snapshot[i];
        ScanStep(iter, snapshot, i, old(deletedParticleCoors));
        if Exits(b) {
          deletedParticleCoors := deletedParticleCoors + [DeletedRow(iter, b.pos.x, b.pos.y, b.pos.z)];
          bodies := RemoveId(bodies, b.id);
        }
      }
      assert bodies == Survivors(snapshot);
      assert deletedParticleCoors == old(deletedParticleCoors) + ExitRows(iter, snapshot);
    }

    /** One engine iteration: the bodies move to `positions` (the scenery
        stays put) and the iteration counter advances. */
    method EngineStep(positions: seq<Vec3>)
      requires Valid() && !paused
      requires |positions| == |bodies|
      requires forall i :: 0 <= i < |bodies| && bodies[i].fixed ==> positions[i] == bodies[i].pos
      modifies this
      ensures Valid()
      ensures bodies == Moved(old(bodies), positions) && iter == old(iter) + 1
      ensures ballCounter == old(ballCounter) && deletedParticleCoors == old(deletedParticleCoors)
      ensures nextId == old(nextId) && paused == old(paused) && dumps == old(dumps)
    {
      MoveKeeps(bodies, positions, nextId);
      bodies := Moved(bodies, positions);
      iter := iter + 1;
    }
  }
}
