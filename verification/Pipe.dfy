/** The `pipe()` of source/posix_compat.cpp: two loopback UDP sockets connected to each other, built from a
    chain of calls each of which may fail. */
module Pipe {
  import opened Text

  /** The socket layer's state: open descriptors, the local address of each bound one, the peer of each
      connected one. Addresses are loopback ports. */
  class Sockets {
    var open: set<int>
    var bound: map<int, nat>
    var peer: map<int, nat>
    var errno: int

    ghost predicate Valid()
      reads this
    {
      bound.Keys <= open && peer.Keys <= open
    }

    constructor ()
      ensures Valid() && open == {} && errno == 0
    {
      open, bound, peer, errno := {}, map[], map[], 0;
    }

    /** `answer` is what the kernel returns: an unused descriptor, or a negative number. */
    method Socket(answer: int) returns (fd: int)
      requires Valid() && answer !in open
      modifies this
      ensures Valid() && fd == answer && bound == old(bound) && peer == old(peer) && errno == old(errno)
      ensures open == if fd < 0 then old(open) else old(open) + {fd}
    {
      fd := answer;
      if fd >= 0 {
        open := open + {fd};
      }
    }

    /** Binding to port 0: the kernel picks the port. */
    method Bind(fd: int, port: Option<nat>) returns (rc: int)
      requires Valid() && fd in open
      modifies this
      ensures Valid() && open == old(open) && peer == old(peer) && errno == old(errno)
      ensures rc == 0 <==> port.Some?
      ensures bound == if port.Some? then old(bound)[fd := port.value] else old(bound)
    {
      rc := -1;
      if port.Some? {
        bound := bound[fd := port.value];
        rc := 0;
      }
    }

    method GetSockName(fd: int, works: bool) returns (rc: int, port: nat)
      requires Valid() && fd in bound
      ensures rc == 0 <==> works
      ensures rc == 0 ==> port == bound[fd]
    {
      if works {
        rc, port := 0, bound[fd];
      } else {
        rc, port := -1, 0;
      }
    }

    method Connect(fd: int, port: nat, works: bool) returns (rc: int)
      requires Valid() && fd in open
      modifies this
      ensures Valid() && open == old(open) && bound == old(bound) && errno == old(errno)
      ensures rc == 0 <==> works
      ensures peer == if works then old(peer)[fd := port] else old(peer)
    {
      rc := -1;
      if works {
        peer := peer[fd := port];
        rc := 0;
      }
    }

    method Close(fd: int)
      requires Valid() && fd in open
      modifies this
      ensures Valid() && errno == old(errno)
      ensures open == old(open) - {fd} && bound == old(bound) - {fd} && peer == old(peer) - {fd}
    {
      open, bound, peer := open - {fd}, bound - {fd}, peer - {fd};
    }

    /** The chain from the first `bind` to the second `connect`, which stops at the first call that fails. */
    method Join(a: int, b: int, k: Kernel) returns (ok: bool)
      requires Valid() && a in open && b in open && a != b
      modifies this
      ensures Valid() && open == old(open) && errno == old(errno)
      ensures ok <==> k.portA.Some? && k.portB.Some? && k.nameA && k.nameB && k.connectA && k.connectB
      ensures bound - {a, b} == old(bound) - {a, b} && peer - {a, b} == old(peer) - {a, b}
      ensures ok ==> a in bound && b in bound && a in peer && b in peer && peer[a] == bound[b] && peer[b] == bound[a]
    {
      var aa, bb := 0, 0;
      var r := Bind(a, k.portA);
      ok := r == 0;
      if ok {
        r := Bind(b, k.portB);
        ok := r == 0;
      }
      if ok {
        r, aa := GetSockName(a, k.nameA);
        ok := r == 0;
      }
      if ok {
        r, bb := GetSockName(b, k.nameB);
        ok := r == 0;
      }
      if ok {
        r := Connect(a, bb, k.connectA);
        ok := r == 0;
      }
      if ok {
        r := Connect(b, aa, k.connectB);
        ok := r == 0;
      }
    }

    /** `pipe(fds)`: on failure nothing is left open and the slots say so; on success exactly two new
        descriptors are open, each connected to the other's bound address. */
    method MakePipe(fds: array?<int>, k: Kernel) returns (rc: int)
      requires Valid() && (fds != null ==> fds.Length == 2)
      requires k.a !in open && k.b !in open && (k.a >= 0 ==> k.a != k.b)
      modifies this, fds
      ensures Valid() && (rc == 0 || rc == -1)
      ensures rc == 0 <==> fds != null && k.AllWork()
      ensures fds == null ==> errno == 22
      ensures fds != null ==> errno == old(errno)
      ensures rc == -1 ==> open == old(open) && bound == old(bound) && peer == old(peer)
      ensures rc == -1 && fds != null ==> fds[0] == -1 && fds[1] == -1
      ensures rc == 0 ==>
                var a, b := fds[0], fds[1];
                && a != b && a !in old(open) && b !in old(open)
                && open == old(open) + {a, b}
                && a in bound && b in bound && a in peer && b in peer
                && peer[a] == bound[b] && peer[b] == bound[a]
                && bound - {a, b} == old(bound) && peer - {a, b} == old(peer)
    {
      if fds == null {
        errno := 22;
        return -1;
      }
      fds[0] := -1;
      fds[1] := -1;
      var a := Socket(k.a);
      if a < 0 {
        return -1;
      }
      var b := Socket(k.b);
      if b < 0 {
        Close(a);
        return -1;
      }
      var ok := Join(a, b, k);
      if !ok {
        ghost var joined := (bound, peer);
        Close(a);
        Close(b);
        assert bound == joined.0 - {a, b} == old(bound) - {a, b} == old(bound);
        assert peer == joined.1 - {a, b} == old(peer) - {a, b} == old(peer);
        return -1;
      }
      fds[0] := a;
      fds[1] := b;
      return 0;
    }
  }

  /** How the calls of one `pipe()` turn out, if they are reached. */
  datatype Kernel = Kernel(a: int, b: int, portA: Option<nat>, portB: Option<nat>,
                           nameA: bool, nameB: bool, connectA: bool, connectB: bool) {
    predicate AllWork() {
      a >= 0 && b >= 0 && portA.Some? && portB.Some? && nameA && nameB && connectA && connectB
    }
  }
}
