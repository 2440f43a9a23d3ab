/** The bolt collector (`bolt.go`) and the up flag it alone sets (`collector.go`). */
module BoltProbe {
  import opened Prelude

  type Err = string

  class ProbeContext {
    var up: bool
    var upDecided: bool

    constructor ()
      ensures Up() == 0 && !upDecided
    {
      up, upDecided := false, false;
    }

    method SignalUp()
      modifies this
      ensures up && upDecided
    {
      up := true;
      upDecided := true;
    }

    method MarkDown()
      modifies this
      ensures !up && upDecided
    {
      up := false;
      upDecided := true;
    }

    function Up(): int
      reads this
    {
      if !upDecided then 0 else if up then 1 else 0
    }
  }

  /** The two gauges of the collector; unset until a measurement succeeds. */
  class Gauges {
    var handshake: Option<int>
    var roundTrip: Option<int>

    constructor ()
      ensures handshake == None && roundTrip == None
    {
      handshake, roundTrip := None, None;
    }
  }

  /**
   `Collect`. `connect` and `query` are the outcomes of the two calls into the driver,
   `took` how long each lasted. The flag is up exactly when nil is returned, whatever it was before.
   */
  method Collect(p: ProbeContext, g: Gauges, connect: Option<Err>, query: Option<Err>, took: (int, int))
    returns (r: Option<Err>)
    modifies p, g
    ensures p.upDecided && p.Up() == if r.None? then 1 else 0
    ensures r == if connect.Some? then connect else query
    ensures g.handshake == if connect.None? then Some(took.0) else old(g.handshake)
    ensures g.roundTrip == if r.None? then Some(took.1) else old(g.roundTrip)
  {
    if connect.Some? {
      p.MarkDown();
      return connect;
    }
    g.handshake := Some(took.0);
    if query.Some? {
      p.MarkDown();
      return query;
    }
    g.roundTrip := Some(took.1);
    p.SignalUp();
    return None;
  }
}
