/** The kernel's side of a socket, as an adversary: any reply to any call. */
module Kernel {
  import opened Bytes

  datatype Errno = Done | Interrupted | WouldBlock | Broken

  datatype Reply = Reply(n: int, errno: Errno)

  function Min(a: int, b: int): (r: int) { if a < b then a else b }
  function Max(a: int, b: int): (r: int) { if a > b then a else b }

  /** How many of `len` bytes a reply takes: -1 when the call fails outright, and never all of
      them when it reports an error. */
  function Took(r: Reply, len: nat): (n: int)
    requires len > 0
    ensures -1 <= n <= len && (r.errno != Done ==> n < len)
  {
    Max(-1, Min(r.n, if r.errno == Done then len else len - 1))
  }

  /** What is left of the replies. */
  predicate Later(script: seq<Reply>, rest: seq<Reply>)
  {
    |rest| <= |script| && rest == script[|script| - |rest|..]
  }

  class Socket {
    /** The replies to come; when they run out, the socket is full. */
    var script: seq<Reply>
    /** What the kernel has taken. */
    var wire: Str

    constructor (script: seq<Reply>)
      ensures this.script == script && wire == []
    {
      this.script, wire := script, [];
    }

    /** write(2) or sendfile(2): takes any number of the bytes, perhaps none, and reports
        any error; a call that reports an error has not taken everything. */
    method Send(b: Str) returns (n: int, errno: Errno)
      requires b != []
      modifies this
      ensures -1 <= n <= |b| && (errno != Done ==> n < |b|)
      ensures wire == old(wire) + b[..Max(n, 0)]
      ensures Later(old(script), script)
      ensures old(script) == [] ==> n == -1 && errno == WouldBlock && script == []
      ensures old(script) != [] ==>
                n == Took(old(script)[0], |b|) && errno == old(script)[0].errno && script == old(script)[1..]
    {
      if script == [] {
        n, errno := -1, WouldBlock;
      } else {
        n, errno := Took(script[0], |b|), script[0].errno;
        script := script[1..];
      }
      wire := wire + b[..Max(n, 0)];
    }
  }
}
