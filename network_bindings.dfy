// The native socket bindings (com.unity.transport/Runtime/Bindings/ios/network.bindings.c):
// the reference count behind network_initialize / network_terminate, and
// the failure contract of network_create_and_bind and network_close.
// The operating system is not modelled: the results of socket(), setsockopt(),
// bind() and close(), and the error code the system reports, are parameters.
// The sockets the system holds open are a set of handles.

module NetworkBindings {
  import opened Words

  const Success: int32 := 0
  const SocketError: int := -1

  /** network_initialize (true) and network_terminate (false) as a sequence of calls. */
  function CounterAfter(counter: int, calls: seq<bool>): (r: int)
    requires counter >= 0
    ensures r >= 0
    decreases |calls|
  {
    if calls == [] then counter
    else if calls[0] then CounterAfter(counter + 1, calls[1..])
    else CounterAfter(if counter > 0 then counter - 1 else 0, calls[1..])
  }

  function Repeat(b: bool, n: nat): (r: seq<bool>)
    ensures |r| == n && forall i | 0 <= i < n :: r[i] == b
  {
    if n == 0 then [] else [b] + Repeat(b, n - 1)
  }

  /** Calls after n initializations push the count up by n. */
  lemma {:induction false} InitializeAdds(counter: nat, n: nat, rest: seq<bool>)
    ensures CounterAfter(counter, Repeat(true, n) + rest) == CounterAfter(counter + n, rest)
    decreases n
  {
    if n > 0 {
      var calls := Repeat(true, n) + rest;
      assert calls[0] && calls[1..] == Repeat(true, n - 1) + rest;
      InitializeAdds(counter + 1, n - 1, rest);
    } else {
      assert Repeat(true, n) + rest == rest;
    }
  }

  /** n terminations from a count of at least n take exactly n off. */
  lemma {:induction false} TerminateTakes(counter: nat, n: nat)
    requires counter >= n
    ensures CounterAfter(counter, Repeat(false, n)) == counter - n
  {
    if n > 0 {
      assert Repeat(false, n)[1..] == Repeat(false, n - 1);
      TerminateTakes(counter - 1, n - 1);
    }
  }

  /** Balanced calls: n initializations followed by n terminations restore the count. */
  lemma BalancedCalls(counter: nat, n: nat)
    ensures CounterAfter(counter, Repeat(true, n) + Repeat(false, n)) == counter
  {
    InitializeAdds(counter, n, Repeat(false, n));
    TerminateTakes(counter + n, n);
  }

  /** Extra terminations never take the count below zero: it stays at zero. */
  lemma {:induction false} TerminateFloors(n: nat)
    ensures CounterAfter(0, Repeat(false, n)) == 0
  {
    if n > 0 {
      assert Repeat(false, n)[1..] == Repeat(false, n - 1);
      TerminateFloors(n - 1);
    }
  }

  /** The bindings' global state: the counter, the system's startups and cleanups, and the open sockets. */
  class Bindings {
    /** g_initialized */
    var initialized: int
    /** The number of WSAStartup and WSACleanup calls made (Windows builds). */
    var startups: nat
    var cleanups: nat
    /** The handles the system holds open. */
    var open: set<int>

    ghost predicate Valid()
      reads this
    {
      initialized >= 0
    }

    constructor ()
      ensures Valid() && initialized == 0 && startups == 0 && cleanups == 0 && open == {}
    {
      initialized, startups, cleanups, open := 0, 0, 0, {};
    }

    /** network_initialize: the system starts up only on the first call; always returns 0. */
    method Initialize() returns (r: int32)
      requires Valid()
      modifies this`initialized, this`startups
      ensures Valid() && r == 0
      ensures initialized == CounterAfter(old(initialized), [true])
      ensures startups == old(startups) + (if old(initialized) == 0 then 1 else 0)
    {
      if initialized == 0 {
        startups := startups + 1;
      }
      initialized := initialized + 1;
      return 0;
    }

    /**
     * network_terminate: the count goes down unless it is zero; the system
     * is cleaned up whenever the count is zero afterwards. Always SUCCESS.
     */
    method Terminate() returns (r: int32)
      requires Valid()
      modifies this`initialized, this`cleanups
      ensures Valid() && r == Success
      ensures initialized == CounterAfter(old(initialized), [false])
      ensures cleanups == old(cleanups) + (if initialized == 0 then 1 else 0)
    {
      if initialized > 0 {
        initialized := initialized - 1;
      }
      if initialized == 0 {
        cleanups := cleanups + 1;
      }
      return Success;
    }

    /**
     * network_create_and_bind. `created` is what socket() returned,
     * `v6OnlyResult` what setsockopt(IPV6_V6ONLY) returned (asked only for
     * an IPv6 address), `bindResult` what bind() returned and `lastError` the
     * system's error code at the failing call. On failure: -1, the error
     * code set, the handle untouched and no socket left open. On success: 0
     * and the handle is the new socket.
     */
    method CreateAndBind(handle: Cell, errorcode: Cell, ipv6: bool, created: int64, v6OnlyResult: int, bindResult: int, lastError: int32)
      returns (r: int32)
      requires handle != errorcode
      requires created < 0 || created !in open  // the system hands out an unused handle
      modifies this`open, handle, errorcode
      ensures var failed := created < 0 || (ipv6 && v6OnlyResult != 0) || bindResult != 0;
        && r == (if failed then -1 else 0)
        && (failed ==> errorcode.value == lastError && handle.value == old(handle.value) && open == old(open))
        && (!failed ==> handle.value == created && errorcode.value == old(errorcode.value) && open == old(open) + {created})
    {
      var s := created;
      if s < 0 {
        errorcode.value := lastError;
        return -1;
      }
      open := open + {s};
      if ipv6 {
        if v6OnlyResult != 0 {
          errorcode.value := lastError;
          CloseSocket(s);
          return -1;
        }
      }
      if bindResult != 0 {
        errorcode.value := lastError;
        CloseSocket(s);
        return -1;
      }
      handle.value := s;
      return 0;
    }

    /** closesocket: the system releases the handle. */
    method CloseSocket(s: int)
      modifies this`open
      ensures open == old(open) - {s}
    {
      open := open - {s};
    }

    /**
     * network_close: closes the socket, sets the error code when close
     * reports SOCKET_ERROR, and clears the handle whatever the result.
     */
    method Close(handle: Cell, errorcode: Cell, closeResult: int32, lastError: int32) returns (r: int32)
      requires handle != errorcode
      modifies this`open, handle, errorcode
      ensures r == closeResult && handle.value == 0
      ensures open == old(open) - {old(handle.value)}
      ensures errorcode.value == if closeResult == SocketError then lastError else old(errorcode.value)
    {
      var retval := closeResult;
      CloseSocket(handle.value);
      if retval == SocketError {
        errorcode.value := lastError;
      }
      handle.value := 0;
      return retval;
    }
  }

  /** An out-parameter of the C API (`int64_t *`, `int32_t *`). */
  class Cell {
    var value: int64

    constructor (v: int64)
      ensures value == v
    {
      value := v;
    }
  }
}
