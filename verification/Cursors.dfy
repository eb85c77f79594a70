/** The two cursors around the pieces still wanted, and the counters of pieces
    had and filtered. */
module Cursors {
  import opened PickerTypes

  ghost predicate AllClosed(m: PieceMap, from: int, to: int)
    requires 0 <= from && to <= |m|
  {
    forall p :: from <= p < to ==> !m[p].Open()
  }

  /** `cursor` is the first open piece and `reverse` is one past the last one, or
      `|m|` and 0 when no piece is open. */
  ghost predicate CursorsAt(m: PieceMap, cursor: int, reverse: int) {
    && 0 <= cursor <= |m| && 0 <= reverse <= |m|
    && AllClosed(m, 0, cursor) && (cursor < |m| ==> m[cursor].Open())
    && AllClosed(m, reverse, |m|) && (reverse > 0 ==> m[reverse - 1].Open())
  }

  /** No open piece lies outside the window, and the window is empty only in the
      form the picker expects. */
  lemma Window(m: PieceMap, cursor: int, reverse: int)
    requires CursorsAt(m, cursor, reverse)
    ensures forall p :: 0 <= p < |m| && m[p].Open() ==> cursor <= p < reverse
    ensures cursor < reverse || (cursor == |m| && reverse == 0)
  {
  }

  /** The two scans from either end, as `init` runs them. */
  method ScanCursors(m: PieceMap) returns (cursor: int, reverse: int)
    ensures CursorsAt(m, cursor, reverse)
  {
    cursor, reverse := 0, |m|;
    while cursor < |m| && !m[cursor].Open()
      invariant 0 <= cursor <= |m| && AllClosed(m, 0, cursor)
    {
      cursor := cursor + 1;
    }
    while reverse > 0 && !m[reverse - 1].Open()
      invariant 0 <= reverse <= |m| && AllClosed(m, reverse, |m|)
    {
      reverse := reverse - 1;
    }
  }

  /** The cursor update after piece `index` has been had or filtered out. */
  method CloseCursors(ghost m0: PieceMap, m: PieceMap, cursor0: int, reverse0: int, index: int) returns (cursor: int, reverse: int)
    requires CursorsAt(m0, cursor0, reverse0) && 0 <= index < |m0|
    requires |m| == |m0| && m == m0[index := m[index]] && !m[index].Open()
    ensures CursorsAt(m, cursor, reverse)
  {
    cursor, reverse := cursor0, reverse0;
    if cursor == reverse - 1 && cursor == index {
      cursor, reverse := |m|, 0;
    } else if cursor == index {
      cursor := cursor + 1;
      while cursor < |m| && !m[cursor].Open()
        invariant 0 <= cursor <= |m| && AllClosed(m, 0, cursor)
      {
        cursor := cursor + 1;
      }
      Window(m0, cursor0, reverse0);
    } else if reverse - 1 == index {
      reverse := reverse - 1;
      while reverse > 0 && !m[reverse - 1].Open()
        invariant 0 <= reverse <= |m| && AllClosed(m, reverse, |m|)
      {
        reverse := reverse - 1;
      }
    }
  }

  /** The cursor update after piece `index` has become wanted again. */
  method OpenCursors(ghost m0: PieceMap, m: PieceMap, cursor0: int, reverse0: int, index: int) returns (cursor: int, reverse: int)
    requires CursorsAt(m0, cursor0, reverse0) && 0 <= index < |m0|
    requires |m| == |m0| && m == m0[index := m[index]] && m[index].Open()
    ensures CursorsAt(m, cursor, reverse)
  {
    cursor := if index < cursor0 then index else cursor0;
    reverse := if index >= reverse0 then index + 1 else reverse0;
    Window(m0, cursor0, reverse0);
    if reverse == cursor {
      reverse, cursor := 0, |m|;
    }
  }

  lemma CursorsStay(m: PieceMap, p: int, x: PiecePos, cursor: int, reverse: int)
    requires CursorsAt(m, cursor, reverse) && 0 <= p < |m| && (x.Open() <==> m[p].Open())
    ensures CursorsAt(m[p := x], cursor, reverse)
  {
  }

  // ------------------------------------------------------------- counters

  function CountHave(m: PieceMap): (r: nat) {
    if |m| == 0 then 0
    else CountHave(m[..|m| - 1]) + if m[|m| - 1].Have() then 1 else 0
  }

  /** Filtered pieces, either those we have or those we lack. */
  function CountFiltered(m: PieceMap, have: bool): (r: nat) {
    if |m| == 0 then 0
    else CountFiltered(m[..|m| - 1], have) + if m[|m| - 1].Filtered() && m[|m| - 1].Have() == have then 1 else 0
  }

  lemma {:induction false} CountsChange(m: PieceMap, p: int, x: PiecePos)
    requires 0 <= p < |m|
    ensures CountHave(m[p := x]) == CountHave(m) - (if m[p].Have() then 1 else 0) + if x.Have() then 1 else 0
    ensures forall have :: CountFiltered(m[p := x], have) == CountFiltered(m, have)
              - (if m[p].Filtered() && m[p].Have() == have then 1 else 0)
              + if x.Filtered() && x.Have() == have then 1 else 0
  {
    var n := |m| - 1;
    if p < n {
      CountsChange(m[..n], p, x);
      assert m[p := x][..n] == m[..n][p := x];
    } else {
      assert m[p := x][..n] == m[..n];
    }
  }

  lemma {:induction false} CountsAgree(m: PieceMap, m': PieceMap)
    requires |m| == |m'|
    requires forall p :: 0 <= p < |m| ==> (m[p].Have() <==> m'[p].Have()) && (m[p].Filtered() <==> m'[p].Filtered())
    ensures CountHave(m) == CountHave(m')
    ensures forall have :: CountFiltered(m, have) == CountFiltered(m', have)
  {
    if |m| > 0 { CountsAgree(m[..|m| - 1], m'[..|m| - 1]); }
  }

  /** Resetting every piece to "not had" moves the had-and-filtered ones over. */
  lemma {:induction false} CountsReset(m: PieceMap, m': PieceMap)
    requires |m| == |m'|
    requires forall p :: 0 <= p < |m| ==> !m'[p].Have() && (m[p].Filtered() <==> m'[p].Filtered())
    ensures CountHave(m') == 0 && CountFiltered(m', true) == 0
    ensures CountFiltered(m', false) == CountFiltered(m, true) + CountFiltered(m, false)
  {
    if |m| > 0 { CountsReset(m[..|m| - 1], m'[..|m| - 1]); }
  }

  lemma {:induction false} CountsAppend(m: PieceMap, t: PieceMap)
    ensures forall have :: CountFiltered(m + t, have) == CountFiltered(m, have) + CountFiltered(t, have)
  {
    if |t| > 0 {
      var n := |t| - 1;
      CountsAppend(m, t[..n]);
      assert (m + t)[..|m + t| - 1] == m + t[..n];
    } else {
      assert m + t == m;
    }
  }

  /** Cursors and counters are exact. */
  ghost predicate Tallied(m: PieceMap, cursor: int, reverse: int, numHave: int, numFiltered: int, numHaveFiltered: int) {
    && CursorsAt(m, cursor, reverse)
    && numHave == CountHave(m)
    && numFiltered == CountFiltered(m, false)
    && numHaveFiltered == CountFiltered(m, true)
  }

  /** Only what is had and what is filtered matters. */
  lemma TalliedAgree(m: PieceMap, m': PieceMap, cursor: int, reverse: int, numHave: int, numFiltered: int, numHaveFiltered: int)
    requires Tallied(m, cursor, reverse, numHave, numFiltered, numHaveFiltered) && |m| == |m'|
    requires forall p :: 0 <= p < |m| ==> (m[p].Have() <==> m'[p].Have()) && (m[p].Filtered() <==> m'[p].Filtered())
    ensures Tallied(m', cursor, reverse, numHave, numFiltered, numHaveFiltered)
  {
    CountsAgree(m, m');
  }
}
