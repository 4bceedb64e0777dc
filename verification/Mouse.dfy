/** Mouse reports: a motion of 16 bits is cut into reports of 8 bits. */
module Mouse {
  import opened Words

  type int8 = x: int | -128 <= x < 128
  type int16 = x: int | -0x8000 <= x < 0x8000

  datatype Mode = Relative | Absolute

  /** The bytes of a report, negative values as two's complement. */
  type Report = seq<byte>

  function ToByte(x: int): byte {
    x % 0x100
  }

  function FromByte(b: byte): int8 {
    if b < 128 then b else b - 256
  }

  function RelativeReport(dx: int8, dy: int8, buttons: byte, z: int8): Report {
    [buttons % 8, ToByte(dx), ToByte(dy), ToByte(0 - (z as int))]
  }

  function AbsoluteReport(x: int16, y: int16, buttons: byte, z: int8): Report {
    [ToByte(x), ToByte(x / 0x100), ToByte(y), ToByte(y / 0x100), ToByte(0 - (z as int)), buttons % 8]
  }

  /** The host's reading of a relative report. */
  function Motion(r: Report): (int8, int8)
    requires |r| == 4
  {
    (FromByte(r[1]), FromByte(r[2]))
  }

  /** What one report makes of a wheel value. */
  function Scrolled(z: int8): int {
    0 - FromByte(ToByte(0 - (z as int))) as int
  }

  lemma OneByte(x: int8)
    ensures FromByte(ToByte(x)) == x
  {
  }

  /** The lowest three of the buttons. */
  lemma LowButtons(buttons: byte)
    ensures buttons % 8 < 8 && (buttons - buttons % 8) % 8 == 0
  {
  }

  lemma MotionOfReport(dx: int8, dy: int8, buttons: byte, z: int8)
    ensures var r := RelativeReport(dx, dy, buttons, z);
            && |r| == 4 && Motion(r) == (dx, dy)
            && 0 - FromByte(r[3]) as int == Scrolled(z) && r[0] < 8 && (buttons - r[0]) % 8 == 0
  {
    hide ToByte, FromByte;
    OneByte(dx);
    OneByte(dy);
    LowButtons(buttons);
  }

  /** What the host makes of two bytes, least significant first. */
  function FromBytes(low: byte, high: byte): int {
    var n := low + 0x100 * (high as int);
    if n < 0x8000 then n else n - 0x1_0000
  }

  lemma LowByte(x: int)
    ensures x == 0x100 * (x / 0x100) + ToByte(x)
  {
  }

  lemma TwoBytes(x: int16)
    ensures FromBytes(ToByte(x), ToByte(x / 0x100)) == x
  {
    hide ToByte;
    LowByte(x);
    LowByte(x / 0x100);
  }

  lemma PositionOfReport(x: int16, y: int16, buttons: byte, z: int8)
    ensures var r := AbsoluteReport(x, y, buttons, z);
            && |r| == 6 && FromBytes(r[0], r[1]) == x && FromBytes(r[2], r[3]) == y
            && 0 - FromByte(r[4]) as int == Scrolled(z) && r[5] < 8 && (buttons - r[5]) % 8 == 0
  {
    hide ToByte, FromBytes, FromByte;
    TwoBytes(x);
    TwoBytes(y);
    LowButtons(buttons);
  }

  predicate IsRelative(reports: seq<Report>) {
    forall r :: r in reports ==> |r| == 4
  }

  function SumX(reports: seq<Report>): int
    requires IsRelative(reports)
  {
    if reports == [] then 0
    else SumX(reports[..|reports| - 1]) + Motion(reports[|reports| - 1]).0
  }

  function SumY(reports: seq<Report>): int
    requires IsRelative(reports)
  {
    if reports == [] then 0
    else SumY(reports[..|reports| - 1]) + Motion(reports[|reports| - 1]).1
  }

  /** The wheel as the host reads it, in the sense of the caller: a report holds its negation. */
  function Scroll(r: Report): int
    requires |r| == 4
  {
    0 - FromByte(r[3]) as int
  }

  function SumScroll(reports: seq<Report>): int
    requires IsRelative(reports)
  {
    if reports == [] then 0
    else SumScroll(reports[..|reports| - 1]) + Scroll(reports[|reports| - 1])
  }

  lemma SumLast(reports: seq<Report>, r: Report)
    requires IsRelative(reports) && |r| == 4
    ensures IsRelative(reports + [r])
    ensures SumX(reports + [r]) == SumX(reports) + Motion(r).0
    ensures SumY(reports + [r]) == SumY(reports) + Motion(r).1
    ensures SumScroll(reports + [r]) == SumScroll(reports) + Scroll(r)
  {
    assert (reports + [r])[..|reports|] == reports;
  }

  /**
   What was delivered between two states: motions adding up to `dx` and `dy`, each in a report
   that carries the buttons and the whole of the wheel.
   */
  ghost predicate Moved(before: seq<Report>, after: seq<Report>, dx: int, dy: int, buttons: byte, z: int8) {
    && IsRelative(before) && IsRelative(after) && before <= after
    && SumX(after) == SumX(before) + dx && SumY(after) == SumY(before) + dy
    && forall i :: |before| <= i < |after| ==>
         after[i][0] == buttons % 8 && after[i][3] == ToByte(0 - (z as int))
  }

  lemma MovedNothing(s: seq<Report>, buttons: byte, z: int8)
    requires IsRelative(s)
    ensures Moved(s, s, 0, 0, buttons, z)
  {
  }

  lemma MovedFurther(
    a: seq<Report>, b: seq<Report>, c: seq<Report>,
    dx: int, dy: int, ex: int, ey: int, buttons: byte, z: int8)
    requires Moved(a, b, dx, dy, buttons, z) && Moved(b, c, ex, ey, buttons, z)
    ensures Moved(a, c, dx + ex, dy + ey, buttons, z) && IsRelative(c) && |a| <= |b| <= |c|
  {
    hide SumX, SumY;
  }

  // The wheel

  /** One report scrolls by what was asked for, but for the one value that has no negation in 8 bits. */
  lemma ScrolledIsAsked(z: int8)
    ensures Scrolled(z) == if z == -128 then 128 else z
  {
  }

  predicate AllCarry(reports: seq<Report>, z: int8) {
    forall i :: 0 <= i < |reports| ==> |reports[i]| == 4 && reports[i][3] == ToByte(0 - (z as int))
  }

  /** The wheel adds up over the reports. */
  lemma {:induction false} ScrollAdds(before: seq<Report>, more: seq<Report>, z: int8)
    requires IsRelative(before) && AllCarry(more, z)
    ensures IsRelative(before + more)
    ensures SumScroll(before + more) == SumScroll(before) + |more| * Scrolled(z)
    decreases |more|
  {
    if more == [] {
      assert before + more == before;
    } else {
      hide Scrolled, Scroll, ToByte;
      var init, r := more[..|more| - 1], more[|more| - 1];
      ScrollAdds(before, init, z);
      SumLast(before + init, r);
      assert before + more == (before + init) + [r];
      ScrollOf(r, z);
      OneMore(|init|, Scrolled(z));
    }
  }

  lemma ScrollPerReport(before: seq<Report>, after: seq<Report>, dx: int, dy: int, buttons: byte, z: int8)
    requires Moved(before, after, dx, dy, buttons, z)
    ensures SumScroll(after) == SumScroll(before) + (|after| - |before|) * Scrolled(z)
  {
    hide SumX, SumY, SumScroll, Scrolled, ToByte;
    var more := after[|before|..];
    assert after == before + more;
    forall i | 0 <= i < |more|
      ensures |more[i]| == 4 && more[i][3] == ToByte(0 - (z as int))
    {
      assert more[i] == after[|before| + i];
    }
    ScrollAdds(before, more, z);
  }

  lemma ScrollOf(r: Report, z: int8)
    requires |r| == 4 && r[3] == ToByte(0 - (z as int))
    ensures Scroll(r) == Scrolled(z)
  {
  }

  lemma OneMore(n: int, w: int)
    ensures n * w + w == (n + 1) * w
  {
  }

  /** How many full reports go ahead of what is left of a coordinate. */
  function Pieces(x: int16): nat {
    if x > 127 then (x - 1) / 127 else if x < -128 then (-1 - x) / 128 else 0
  }

  /** The reports of a relative update. */
  function Reports(x: int16, y: int16): nat {
    Pieces(x) + Pieces(y) + 1
  }

  lemma NextPiece(x: int16)
    ensures x > 127 ==> Pieces(x) == Pieces(x - 127) + 1
    ensures x < -128 ==> Pieces(x) == Pieces(x + 128) + 1
    ensures Pieces(x) == 0 <==> -128 <= x <= 127
  {
  }

  /**
   A relative update that succeeds scrolls once for every report, so as far as was asked for if
   and only if that is not at all, or one report does and the wheel has a negation.
   */
  lemma ScrollIsAskedIff(before: seq<Report>, after: seq<Report>, x: int16, y: int16, buttons: byte, z: int8)
    requires Moved(before, after, x, y, buttons, z) && |after| == |before| + Reports(x, y)
    ensures SumScroll(after) == SumScroll(before) + Reports(x, y) * Scrolled(z)
    ensures SumScroll(after) == SumScroll(before) + z <==>
            z == 0 || (z != -128 && -128 <= x <= 127 && -128 <= y <= 127)
  {
    hide SumX, SumY, SumScroll, Pieces;
    ScrollPerReport(before, after, x, y, buttons, z);
    ScrolledIsAsked(z);
    NextPiece(x);
    NextPiece(y);
    SeveralTimes(Reports(x, y), z);
  }

  lemma SeveralTimes(n: nat, z: int)
    requires 1 <= n
    ensures n * z == z <==> n == 1 || z == 0
    ensures n * 128 != -128
  {
    if n > 1 && z != 0 {
      assert (n - 1) * z != 0;
    }
  }

  /** A motion of 128 to the right with one click of the wheel scrolls two. */
  lemma ScrollsTwice(before: seq<Report>, after: seq<Report>, buttons: byte)
    requires Moved(before, after, 128, 0, buttons, 1) && |after| == |before| + Reports(128, 0)
    ensures SumScroll(after) == SumScroll(before) + 2
  {
    hide Moved, IsRelative, SumScroll;
    ScrollIsAskedIff(before, after, 128, 0, buttons, 1);
    ScrolledIsAsked(1);
  }

  // Splitting

  /** `n` reports are through, all accepted, and `x` and `y` are still to be delivered. */
  ghost predicate Splitting(
    was: seq<Report>, now: seq<Report>, n: int, x0: int16, y0: int16, x: int16, y: int16, button: byte, z: int8)
  {
    && Moved(was, now, x0 - x, y0 - y, button, z)
    && |now| == |was| + n && n + Pieces(x) + Pieces(y) == Pieces(x0) + Pieces(y0)
  }

  lemma PieceSent(
    was: seq<Report>, now: seq<Report>, next: seq<Report>, n: int,
    x0: int16, y0: int16, x: int16, y: int16, dx: int8, dy: int8, button: byte, z: int8)
    requires Splitting(was, now, n, x0, y0, x, y, button, z)
    requires Moved(now, next, dx, dy, button, z) && |next| == |now| + 1
    requires (dx == 127 < x && dy == 0) || (dx == -128 > x && dy == 0)
          || (dy == 127 < y && dx == 0) || (dy == -128 > y && dx == 0)
    ensures Splitting(was, next, n + 1, x0, y0, x - dx, y - dy, button, z)
  {
    hide Moved, Pieces;
    MovedFurther(was, now, next, x0 - x, y0 - y, dx, dy, button, z);
    NextPiece(x);
    NextPiece(y);
  }

  lemma NothingSent(was: seq<Report>, x: int16, y: int16, button: byte, z: int8)
    requires IsRelative(was)
    ensures Splitting(was, was, 0, x, y, x, y, button, z)
  {
    MovedNothing(was, button, z);
  }

  lemma Refused(
    was: seq<Report>, now: seq<Report>, next: seq<Report>, n: int,
    x0: int16, y0: int16, x: int16, y: int16, button: byte, z: int8)
    requires Splitting(was, now, n, x0, y0, x, y, button, z)
    requires Moved(now, next, 0, 0, button, z) && |next| == |now|
    ensures Moved(was, next, x0 - x, y0 - y, button, z) && |next| == |was| + n < |was| + Reports(x0, y0)
  {
    hide Moved, Pieces;
    MovedFurther(was, now, next, x0 - x, y0 - y, 0, 0, button, z);
  }

  lemma LastSent(
    was: seq<Report>, now: seq<Report>, next: seq<Report>, n: int,
    x0: int16, y0: int16, x: int8, y: int8, button: byte, z: int8)
    requires Splitting(was, now, n, x0, y0, x, y, button, z)
    requires Moved(now, next, x, y, button, z) && |next| == |now| + 1
    ensures Moved(was, next, x0, y0, button, z) && n + 1 == Reports(x0, y0) && |next| == |was| + n + 1
  {
    hide Moved, Pieces;
    MovedFurther(was, now, next, x0 - x, y0 - y, x, y, button, z);
    NextPiece(x);
    NextPiece(y);
  }

  /** A mouse, and the endpoint its reports go to: sending one can fail. */
  class UsbMouse {
    const mode: Mode
    const accepts: nat -> bool   // the endpoint's answer to each attempt to send
    var attempts: nat
    var delivered: seq<Report>

    constructor (mode: Mode, accepts: nat -> bool)
      ensures this.mode == mode && this.accepts == accepts && delivered == [] && attempts == 0
    {
      this.mode, this.accepts := mode, accepts;
      attempts, delivered := 0, [];
    }

    method Send(report: Report) returns (ok: bool)
      modifies this
      ensures ok == accepts(old(attempts)) && attempts == old(attempts) + 1
      ensures delivered == old(delivered) + if ok then [report] else []
    {
      ok := accepts(attempts);
      attempts := attempts + 1;
      if ok {
        delivered := delivered + [report];
      }
    }

    method MouseSend(dx: int8, dy: int8, buttons: byte, z: int8) returns (ok: bool)
      requires IsRelative(delivered)
      modifies this
      ensures ok == accepts(old(attempts)) && attempts == old(attempts) + 1
      ensures |delivered| == |old(delivered)| + if ok then 1 else 0
      ensures Moved(old(delivered), delivered, if ok then dx else 0, if ok then dy else 0, buttons, z)
    {
      var report := RelativeReport(dx, dy, buttons, z);
      MotionOfReport(dx, dy, buttons, z);
      SumLast(delivered, report);
      assert delivered + [] == delivered;
      ok := Send(report);
    }

    /** Every attempt since one of them was accepted. */
    predicate AllAccepted(since: nat)
      reads this
    {
      forall i :: since <= i < attempts ==> accepts(i)
    }

    /** The last attempt since one of them, and no other, was refused. */
    ghost predicate StoppedAt(
      was: seq<Report>, since: nat, dx: int, dy: int, reports: nat, button: byte, z: int8)
      reads this
    {
      && Moved(was, delivered, dx, dy, button, z)
      && since < attempts <= since + reports && |delivered| == |was| + attempts - since - 1
      && !accepts(attempts - 1) && forall i :: since <= i < attempts - 1 ==> accepts(i)
    }

    /** Cuts the horizontal motion down to what fits a report. */
    method SplitX(
      ghost was: seq<Report>, ghost start: nat, ghost x0: int16, ghost y0: int16,
      x1: int16, y1: int16, button: byte, z: int8)
      returns (ok: bool, x: int16, y: int16)
      requires IsRelative(delivered) && start <= attempts && AllAccepted(start)
      requires Splitting(was, delivered, attempts - start, x0, y0, x1, y1, button, z)
      modifies this
      ensures start <= attempts && (!ok ==> StoppedAt(was, start, x0 - x, y0 - y, Reports(x0, y0), button, z))
      ensures ok ==> IsRelative(delivered) && AllAccepted(start)
      ensures ok ==> Splitting(was, delivered, attempts - start, x0, y0, x, y, button, z)
      ensures y == y1 && (ok ==> -128 <= x <= 127)
    {
      hide Moved, Splitting, Pieces, IsRelative;
      ok, x, y := true, x1, y1;
      while x > 127
        invariant start <= attempts && AllAccepted(start) && IsRelative(delivered)
        invariant Splitting(was, delivered, attempts - start, x0, y0, x, y, button, z)
      {
        ghost var before := delivered;
        ok := MouseSend(127, 0, button, z);
        if !ok {
          Refused(was, before, delivered, attempts - 1 - start, x0, y0, x, y, button, z);
          return;
        }
        PieceSent(was, before, delivered, attempts - 1 - start, x0, y0, x, y, 127, 0, button, z);
        x := x - 127;
      }
      while x < -128
        invariant x <= 127
        invariant start <= attempts && AllAccepted(start) && IsRelative(delivered)
        invariant Splitting(was, delivered, attempts - start, x0, y0, x, y, button, z)
      {
        ghost var before := delivered;
        ok := MouseSend(-128, 0, button, z);
        if !ok {
          Refused(was, before, delivered, attempts - 1 - start, x0, y0, x, y, button, z);
          return;
        }
        PieceSent(was, before, delivered, attempts - 1 - start, x0, y0, x, y, -128, 0, button, z);
        x := x + 128;
      }
    }

    /** The same for the vertical motion. */
    method SplitY(
      ghost was: seq<Report>, ghost start: nat, ghost x0: int16, ghost y0: int16,
      x1: int16, y1: int16, button: byte, z: int8)
      returns (ok: bool, x: int16, y: int16)
      requires IsRelative(delivered) && start <= attempts && AllAccepted(start)
      requires Splitting(was, delivered, attempts - start, x0, y0, x1, y1, button, z)
      modifies this
      ensures start <= attempts && (!ok ==> StoppedAt(was, start, x0 - x, y0 - y, Reports(x0, y0), button, z))
      ensures ok ==> IsRelative(delivered) && AllAccepted(start)
      ensures ok ==> Splitting(was, delivered, attempts - start, x0, y0, x, y, button, z)
      ensures x == x1 && (ok ==> -128 <= y <= 127)
    {
      hide Moved, Splitting, Pieces, IsRelative;
      ok, x, y := true, x1, y1;
      while y > 127
        invariant start <= attempts && AllAccepted(start) && IsRelative(delivered)
        invariant Splitting(was, delivered, attempts - start, x0, y0, x, y, button, z)
      {
        ghost var before := delivered;
        ok := MouseSend(0, 127, button, z);
        if !ok {
          Refused(was, before, delivered, attempts - 1 - start, x0, y0, x, y, button, z);
          return;
        }
        PieceSent(was, before, delivered, attempts - 1 - start, x0, y0, x, y, 0, 127, button, z);
        y := y - 127;
      }
      while y < -128
        invariant y <= 127
        invariant start <= attempts && AllAccepted(start) && IsRelative(delivered)
        invariant Splitting(was, delivered, attempts - start, x0, y0, x, y, button, z)
      {
        ghost var before := delivered;
        ok := MouseSend(0, -128, button, z);
        if !ok {
          Refused(was, before, delivered, attempts - 1 - start, x0, y0, x, y, button, z);
          return;
        }
        PieceSent(was, before, delivered, attempts - 1 - start, x0, y0, x, y, 0, -128, button, z);
        y := y + 128;
      }
    }

    /**
     Relative motion is delivered in full, or up to the report the endpoint refused, and then
     `left` is exactly what is missing; that report is the last one attempted.
     */
    method UpdateRelative(x0: int16, y0: int16, button: byte, z: int8)
      returns (ok: bool, left: (int16, int16))
      requires mode == Relative && IsRelative(delivered)
      modifies this
      ensures Moved(old(delivered), delivered, x0 - left.0, y0 - left.1, button, z)
      ensures old(attempts) < attempts <= old(attempts) + Reports(x0, y0)
      ensures |delivered| == |old(delivered)| + attempts - old(attempts) - if ok then 0 else 1
      ensures ok <==> AllAccepted(old(attempts))
      ensures ok ==> left == (0, 0) && attempts == old(attempts) + Reports(x0, y0)
      ensures !ok ==> !accepts(attempts - 1) && forall i :: old(attempts) <= i < attempts - 1 ==> accepts(i)
    {
      hide Moved, Splitting, Pieces, IsRelative;
      ghost var was, start := delivered, attempts;
      NothingSent(was, x0, y0, button, z);
      var x, y;
      ok, x, y := SplitX(was, start, x0, y0, x0, y0, button, z);
      if !ok {
        return false, (x, y);
      }
      ok, x, y := SplitY(was, start, x0, y0, x, y, button, z);
      if !ok {
        return false, (x, y);
      }
      ghost var before := delivered;
      ok := MouseSend(x, y, button, z);
      if ok {
        LastSent(was, before, delivered, attempts - 1 - start, x0, y0, x, y, button, z);
      } else {
        Refused(was, before, delivered, attempts - 1 - start, x0, y0, x, y, button, z);
      }
      left := if ok then (0, 0) else (x, y);
    }

    method Update(x: int16, y: int16, button: byte, z: int8) returns (ok: bool)
      requires mode == Relative ==> IsRelative(delivered)
      modifies this
      ensures ok <==> AllAccepted(old(attempts))
      ensures mode == Relative && ok ==>
        && Moved(old(delivered), delivered, x, y, button, z)
        && |delivered| == |old(delivered)| + Reports(x, y)
      ensures mode == Absolute ==>
        && attempts == old(attempts) + 1
        && delivered == old(delivered) + if ok then [AbsoluteReport(x, y, button, z)] else []
    {
      match mode
      case Relative =>
        var left;
        ok, left := UpdateRelative(x, y, button, z);
      case Absolute =>
        ok := Send(AbsoluteReport(x, y, button, z));
    }
  }
}
