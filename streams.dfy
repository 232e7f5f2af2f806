/**
 * The transports of the bridge and a record of what one step writes to each.
 * A transport's own `write` is taken to accept every byte it is given, so
 * what a port receives is the concatenation of the texts written to it.
 */
module Streams {

  /** `Serial` (local USB UART), `Serial1` (the UART to the bridged device), `SerialBT` (Bluetooth SPP). */
  datatype Port = Serial | Serial1 | SerialBT

  /** Everything written to each port, in order. */
  datatype Writes = Writes(serial: seq<char>, serial1: seq<char>, bt: seq<char>)

  const NoWrites: Writes := Writes([], [], [])

  /** What port p received. */
  function To(w: Writes, p: Port): seq<char> {
    match p
    case Serial => w.serial
    case Serial1 => w.serial1
    case SerialBT => w.bt
  }

  /** `p.write(s)`: s is appended to what p received, and no other port changes. */
  function Emit(w: Writes, p: Port, s: seq<char>): (r: Writes)
    ensures To(r, p) == To(w, p) + s
    ensures forall q :: q != p ==> To(r, q) == To(w, q)
  {
    match p
    case Serial => w.(serial := w.serial + s)
    case Serial1 => w.(serial1 := w.serial1 + s)
    case SerialBT => w.(bt := w.bt + s)
  }

  /** What a writes, followed by what b writes. */
  function Then(a: Writes, b: Writes): (r: Writes)
    ensures forall p :: To(r, p) == To(a, p) + To(b, p)
  {
    Writes(a.serial + b.serial, a.serial1 + b.serial1, a.bt + b.bt)
  }

  /** Nothing more written after a leaves a unchanged. */
  lemma ThenNothing(a: Writes)
    ensures Then(a, NoWrites) == a
  {
    assert a.serial + [] == a.serial && a.serial1 + [] == a.serial1 && a.bt + [] == a.bt;
  }

  /** s written once to every port of `ports`, first to last. */
  function EmitAll(w: Writes, ports: seq<Port>, s: seq<char>): Writes
    decreases |ports|
  {
    if ports == [] then w else Emit(EmitAll(w, ports[..|ports| - 1], s), ports[|ports| - 1], s)
  }

  /** s repeated n times. */
  function Repeat(s: seq<char>, n: nat): (r: seq<char>)
    ensures |r| == n * |s|
  {
    if n == 0 then [] else Repeat(s, n - 1) + s
  }

  /** How many times p is listed in ports. */
  function Count(ports: seq<Port>, p: Port): (n: nat)
    ensures n == multiset(ports)[p]
    decreases |ports|
  {
    if ports == [] then 0
    else
      var init := ports[..|ports| - 1];
      assert ports == init + [ports[|ports| - 1]];
      Count(init, p) + if ports[|ports| - 1] == p then 1 else 0
  }

  /** Writing s to a list of ports gives each port s once per time it is listed. */
  lemma {:induction false} EmitAllContents(w: Writes, ports: seq<Port>, s: seq<char>, q: Port)
    ensures To(EmitAll(w, ports, s), q) == To(w, q) + Repeat(s, Count(ports, q))
    decreases |ports|
  {
    if ports != [] {
      var init := ports[..|ports| - 1];
      var n := Count(init, q);
      EmitAllContents(w, init, s, q);
      if ports[|ports| - 1] == q {
        calc {
          To(EmitAll(w, ports, s), q);
          To(EmitAll(w, init, s), q) + s;
          (To(w, q) + Repeat(s, n)) + s;
          To(w, q) + Repeat(s, n + 1);
        }
      }
    }
  }
}
