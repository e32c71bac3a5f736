/** The TCP connection to a Wavefront proxy, reduced to what the writers see
    of it: `puts` of a line either returns or raises. Which one it does is not
    up to the program, so the connection carries a script of the outcomes of
    its coming writes (an empty script delivers everything) and a log of
    every line it was given, with its outcome. */
module Proxy {

  class Socket {
    /** The fate of each coming `puts`: true delivers, false raises. */
    var script: seq<bool>
    /** Every line written so far, with whether it was delivered. */
    var log: seq<(string, bool)>

    constructor(script: seq<bool>)
      ensures this.script == script && log == []
    {
      this.script := script;
      log := [];
    }

    /** `sock.puts(line)`: returns true when the line went out and false
        where Ruby would raise. */
    method Puts(line: string) returns (delivered: bool)
      modifies this
      ensures delivered == (old(script) == [] || old(script)[0])
      ensures script == if old(script) == [] then [] else old(script)[1..]
      ensures log == old(log) + [(line, delivered)]
    {
      delivered := script == [] || script[0];
      if script != [] {
        script := script[1..];
      }
      log := log + [(line, delivered)];
    }
  }

  /** The lines of a log, in order. */
  function Lines(log: seq<(string, bool)>): (r: seq<string>)
    ensures |r| == |log| && forall i :: 0 <= i < |log| ==> r[i] == log[i].0
  {
    if log == [] then [] else [log[0].0] + Lines(log[1..])
  }

  /** How many lines of a log were delivered. */
  function Delivered(log: seq<(string, bool)>): (n: nat)
    ensures n <= |log|
  {
    if log == [] then 0 else (if log[|log| - 1].1 then 1 else 0) + Delivered(log[..|log| - 1])
  }

  lemma LogAppend(log: seq<(string, bool)>, entry: (string, bool))
    ensures Lines(log + [entry]) == Lines(log) + [entry.0]
    ensures Delivered(log + [entry]) == Delivered(log) + (if entry.1 then 1 else 0)
  {
    assert (log + [entry])[..|log|] == log;
  }

  lemma SendsAppend(a: seq<(string, bool)>, b: seq<(string, bool)>)
    ensures Lines(a + b) == Lines(a) + Lines(b)
    ensures Delivered(a + b) == Delivered(a) + Delivered(b)
  {
    assert Lines(a + b) == Lines(a) + Lines(b);
    DeliveredAppend(a, b);
  }

  lemma {:induction false} DeliveredAppend(a: seq<(string, bool)>, b: seq<(string, bool)>)
    ensures Delivered(a + b) == Delivered(a) + Delivered(b)
  {
    if b == [] {
      assert a + b == a;
    } else {
      var init := b[..|b| - 1];
      DeliveredAppend(a, init);
      assert (a + b)[..|a + b| - 1] == a + init;
    }
  }
}
