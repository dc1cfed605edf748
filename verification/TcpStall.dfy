/** What becomes of a socket after the assertion of `send_buffer_` has failed, in
    a program compiled without assertions: the write event is turned off, so that
    the socket sends nothing more until it is closed; a half-closed one loses the
    packets of its low list. */
module TcpStall {
  import opened Common
  import opened TcpSend

  /** A socket, and whether its thread waits for it to become writable. */
  datatype Watched = Watched(s: Sock, on: bool)

  /** `send_buffer_` goes on behind the assertion. */
  function Unchecked(o: Outcome): Sock
  {
    if o.AssertFails? && o.s.halfclose then ForceClose(o.s) else o.s
  }

  /** A step, with its calls of `sp_write`. */
  function Watch(w: Watched, st: Step): Watched
  {
    var s := w.s;
    match st
    case Queue(p, low) =>
      Watched(Append(s, p, low), w.on || (!s.closed && !s.halfclose && SendBufferEmpty(s) && s.connected))
    case Write(io) =>
      var s' := DirectWrite(s, io);
      Watched(s', w.on || (s.dw.None? && s'.dw.Some?))
    case Send(ios) =>
      if !w.on || !s.connected then w
      else
        var o := Flush(s, ios);
        var s' := Unchecked(o);
        Watched(s', if s.direct.Some? then w.on else o.Went? && !SendBufferEmpty(s'))
    case Connected =>
      Watched(s.(connected := true), w.on && !(SendBufferEmpty(s) && s.dw.None?))
    case _ => Watched(Apply(s, st), w.on)
  }

  function WatchAll(w: Watched, steps: seq<Step>): Watched
    decreases |steps|
  {
    if steps == [] then w else WatchAll(Watch(w, steps[0]), steps[1..])
  }

  /** Packets wait and nobody looks. */
  ghost predicate Stalled(w: Watched)
  {
    && !w.s.closed && w.s.connected && !w.on
    && !SendBufferEmpty(w.s) && w.s.direct.None? && w.s.dw.None?
  }

  lemma {:induction false} AssertFailed(s: Sock, ios: seq<Io>)
    requires Inv(s) && Flush(s, ios).AssertFails?
    ensures var s' := Flush(s, ios).s;
      Inv(s') && s'.low != [] && s'.direct.None? && s'.dw.None? && !s'.closed
      && s'.connected == s.connected && s'.halfclose == s.halfclose
  {
    FlushInv(s, ios);
    AssertFailsIff(s, ios);
  }

  /** The failing assertion stalls the socket, or, if it is half closed, drops the
      packets that wait. */
  lemma {:induction false} AssertStalls(w: Watched, ios: seq<Io>)
    requires Inv(w.s) && w.on && w.s.connected && Flush(w.s, ios).AssertFails?
    ensures var w', s' := Watch(w, Send(ios)), Flush(w.s, ios).s;
      if w.s.halfclose then w'.s.closed && w'.s.dropped == s'.dropped + Pending(s') && s'.low != []
      else Stalled(w') && w'.s.low != []
  {
    AssertFailed(w.s, ios);
  }

  lemma {:induction false} StalledStep(w: Watched, st: Step)
    requires Stalled(w) && !st.HalfClose? && !st.Close?
    ensures Stalled(Watch(w, st)) && Watch(w, st).s.wire == w.s.wire
  {
  }

  /** Until it is closed, a stalled socket sends nothing, whatever is queued. */
  lemma {:induction false} StalledForever(w: Watched, steps: seq<Step>)
    requires Stalled(w) && forall i :: 0 <= i < |steps| ==> !steps[i].HalfClose? && !steps[i].Close?
    ensures Stalled(WatchAll(w, steps)) && WatchAll(w, steps).s.wire == w.s.wire
    decreases |steps|
  {
    if steps != [] {
      StalledStep(w, steps[0]);
      StalledForever(Watch(w, steps[0]), steps[1..]);
    }
  }

  /** Without assertions too, every step keeps the invariant. */
  lemma {:induction false} WatchInv(w: Watched, st: Step)
    requires Inv(w.s)
    ensures Inv(Watch(w, st).s)
  {
    StepInv(w.s, st);
    if st.Send? && w.s.connected && Flush(w.s, st.ios).AssertFails? {
      AssertFailed(w.s, st.ios);
      CloseInv(Flush(w.s, st.ios).s);
    }
  }
}
