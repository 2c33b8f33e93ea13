/** What roles emit, and that it fits where it goes: np_base/src/proxy/inlet.rs, outlet.rs and socks5/mod.rs. */
module Directions {
  import opened Bytes
  import opened Codec
  import opened Messages
  import opened Socks5
  import Flows
  import Routing
  import Session
  import Socks5Proofs
  import Socks5Run
  import Socks5Session
  import Socks5Accounts
  import Tunnel
  import TunnelTheorems

  /** A SOCKS5 session in TCP mode, like a TCP session, emits one direction at each end. */
  lemma SocksDirectionsAreKept(lib: Lib, cfg: Config, u: Setup, es: seq<Socks5Session.SockEvent>)
    requires Sound(lib) && u.offer == OfferOf(lib, cfg)
    ensures var s := Socks5Session.SockRun(NpipeCoder(lib), u, Socks5Session.Opened(cfg), es);
      Socks5Accounts.Udp(s.x) || (AllUp(s.i2o) && AllDown(s.o2i) && AllDown(s.inbox))
  {
    var c := NpipeCoder(lib);
    NpipeCoderIsFaithful(lib);
    Socks5Accounts.OpenedHasInv(c, cfg);
    Socks5Accounts.SockRunKeepsInv(c, u, Socks5Session.Opened(cfg), es);
    var s := Socks5Session.SockRun(c, u, Socks5Session.Opened(cfg), es);
    if !Socks5Accounts.Udp(s.x) {
      ShapeDirections(c, s);
    }
  }

  lemma ShapeDirections(c: Coder, s: Socks5Session.Sock)
    requires Socks5Accounts.SockShape(c, s)
    ensures AllUp(s.i2o) && AllDown(s.o2i) && AllDown(s.inbox)
  {
  }

  predicate EmitsUp(es: seq<Effect>) { forall k | 0 <= k < |es| && es[k].Emit? :: IsI2o(es[k].m) }

  lemma ReactionEmitsUp(u: Setup, x: Ctx, i: Socks5Proofs.Input)
    requires Socks5Proofs.React(u, x, i).Ok?
    ensures EmitsUp(Socks5Proofs.React(u, x, i).effects)
  {
    if i.Frame? && x.status.Connect? {
      Socks5Run.ConnectReacts(u, x.(buffer := x.buffer + i.frame));
    }
  }

  lemma EmitsUpAppend(a: seq<Effect>, b: seq<Effect>)
    requires EmitsUp(a) && EmitsUp(b)
    ensures EmitsUp(a + b)
  {
  }

  /** Whatever the mode, all that a context itself ever emits goes up. */
  lemma {:induction false} ContextEmitsUp(u: Setup, inputs: seq<Socks5Proofs.Input>)
    requires Socks5Proofs.RunAll(u, inputs).Ok?
    ensures EmitsUp(Socks5Proofs.RunAll(u, inputs).effects)
    decreases |inputs|
  {
    if inputs != [] {
      var before, i := Socks5Proofs.RunAll(u, inputs[..|inputs| - 1]), inputs[|inputs| - 1];
      ContextEmitsUp(u, inputs[..|inputs| - 1]);
      ReactionEmitsUp(u, before.ctx, i);
      EmitsUpAppend(before.effects, Socks5Proofs.React(u, before.ctx, i).effects);
    }
  }

  /** All of a queue fits the role its closure hands it to, on the server and on a client. */
  predicate Fits(w: Routing.Server, c: Routing.Client, t: Routing.Ends, isInlet: bool, q: Flows.Queue) {
    forall k | 0 <= k < |q| ::
      Routing.RoleFits(Routing.RoleOutput(w, t, isInlet, q[k])) && Routing.RoleFits(Routing.ClientOutput(c, t, isInlet, q[k]))
  }

  lemma DirectionFits(w: Routing.Server, c: Routing.Client, t: Routing.Ends, isInlet: bool, q: Flows.Queue)
    requires if isInlet then AllUp(q) else AllDown(q)
    ensures Fits(w, c, t, isInlet, q)
  {
    forall k | 0 <= k < |q|
      ensures Routing.RoleFits(Routing.RoleOutput(w, t, isInlet, q[k])) && Routing.RoleFits(Routing.ClientOutput(c, t, isInlet, q[k]))
    {
      Routing.OutputFitsIff(w, c, t, isInlet, q[k]);
    }
  }

  /**
   * Whatever the sessions of a TCP tunnel have queued along any run fits the roles that the closures hand it to:
   * the unknown-message branches are unreachable.
   */
  lemma TunnelEmissionsFit(lib: Lib, es: seq<Tunnel.NetEvent>, w: Routing.Server, c: Routing.Client, t: Routing.Ends)
    requires Sound(lib)
    ensures var n := Tunnel.Run(NpipeCoder(lib), Tunnel.EMPTY, es);
      Fits(w, c, t, true, n.i2o) && Fits(w, c, t, false, n.o2i)
  {
    TunnelTheorems.DirectionsAreKept(lib, es);
    var n := Tunnel.Run(NpipeCoder(lib), Tunnel.EMPTY, es);
    DirectionFits(w, c, t, true, n.i2o);
    DirectionFits(w, c, t, false, n.o2i);
  }

  /** The same for every run of a SOCKS5 session in TCP mode. */
  lemma SocksEmissionsFit(lib: Lib, cfg: Config, u: Setup, es: seq<Socks5Session.SockEvent>,
                          w: Routing.Server, c: Routing.Client, t: Routing.Ends)
    requires Sound(lib) && u.offer == OfferOf(lib, cfg)
    ensures var s := Socks5Session.SockRun(NpipeCoder(lib), u, Socks5Session.Opened(cfg), es);
      Socks5Accounts.Udp(s.x) || (Fits(w, c, t, true, s.i2o) && Fits(w, c, t, false, s.o2i))
  {
    SocksDirectionsAreKept(lib, cfg, u, es);
    var s := Socks5Session.SockRun(NpipeCoder(lib), u, Socks5Session.Opened(cfg), es);
    if !Socks5Accounts.Udp(s.x) {
      DirectionFits(w, c, t, true, s.i2o);
      DirectionFits(w, c, t, false, s.o2i);
    }
  }

  /** A bounce ends the session that gets it, at the end the bounced message came from. */
  lemma BounceCloses(c: Coder, l: Session.Local, m: ProxyMessage, ok: bool)
    requires Routing.Bounce(m).Some?
    ensures var back := Routing.Bounce(m).value;
      && (IsI2o(m) && l.inlet.task.Some? ==> Session.InletInput(c, l, back) == l.(inlet := Session.Push(l.inlet, Close)))
      && (!IsI2o(m) && l.registered && l.outlet.task.Some? ==>
            Session.OutletInput(c, l, back, ok) == (l.(registered := false, outlet := Session.Push(l.outlet, Close)), []))
  {
  }
}
