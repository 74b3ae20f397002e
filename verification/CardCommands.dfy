/** What the block commands do to the card, and that commands which cover a request in order deliver
    or replace exactly its bytes. */
module CardCommands {
  import opened SdRegisters

  type Byte = bv8

  /** The command moves `n` blocks of 512 bytes from block `first` on, in the given direction. */
  ghost predicate Transfers(x: Command, first: nat, n: nat, write: bool) {
    if write then (if n == 1 then x == WriteSingleBlock(first, 512) else x == WriteMultipleBlocks(first, n * 512))
    else (if n == 1 then x == ReadSingleBlock(first, 512) else x == ReadMultipleBlocks(first, n * 512))
  }

  /** Command by command, the blocks are exactly those of the request, in order. */
  ghost predicate Covers(commands: seq<Command>, first: nat, n: nat, write: bool)
    decreases |commands|
  {
    if commands == [] then n == 0 else exists m :: StartsWith(commands, first, m, n, write)
  }

  ghost predicate StartsWith(commands: seq<Command>, first: nat, m: nat, n: nat, write: bool)
    requires commands != []
    decreases |commands|, 0
  {
    0 < m <= n && Transfers(commands[0], first, m, write) && Covers(commands[1..], first + m, n - m, write)
  }

  lemma CoversMore(commands: seq<Command>, first: nat, m: nat, n: nat, write: bool)
    requires commands != [] && 0 < m <= n && Transfers(commands[0], first, m, write)
    requires Covers(commands[1..], first + m, n - m, write)
    ensures Covers(commands, first, n, write)
  {
    assert StartsWith(commands, first, m, n, write);
  }

  function Offset(block: nat): nat { block * 512 }

  /** What the card sends for a read command: the bytes from its block argument on. */
  ghost function Delivered(data: seq<Byte>, x: Command): seq<Byte> {
    if (x.ReadSingleBlock? || x.ReadMultipleBlocks?) && Offset(x.block) + x.len <= |data|
    then data[Offset(x.block)..Offset(x.block) + x.len] else []
  }

  ghost function DeliveredAll(data: seq<Byte>, commands: seq<Command>): seq<Byte> {
    if commands == [] then [] else Delivered(data, commands[0]) + DeliveredAll(data, commands[1..])
  }

  /** What the card holds after a write command that came with these bytes. */
  ghost function Stored(data: seq<Byte>, x: Command, bytes: seq<Byte>): seq<Byte> {
    if (x.WriteSingleBlock? || x.WriteMultipleBlocks?) && |bytes| == x.len && Offset(x.block) + x.len <= |data|
    then Replaced(data, Offset(x.block), bytes) else data
  }

  ghost function Replaced(data: seq<Byte>, at: nat, bytes: seq<Byte>): seq<Byte>
    requires at + |bytes| <= |data|
  {
    data[..at] + bytes + data[at + |bytes|..]
  }

  /** Each command takes its bytes from the front of what is left. */
  ghost function StoredAll(data: seq<Byte>, commands: seq<Command>, bytes: seq<Byte>): seq<Byte>
    decreases |commands|
  {
    if commands == [] then data
    else
      var len := Taken(commands[0], bytes);
      StoredAll(Stored(data, commands[0], bytes[..len]), commands[1..], bytes[len..])
  }

  ghost function Taken(x: Command, bytes: seq<Byte>): (n: nat)
    ensures n <= |bytes|
  {
    if (x.WriteSingleBlock? || x.WriteMultipleBlocks?) && x.len <= |bytes| then x.len else 0
  }

  lemma OneDelivers(data: seq<Byte>, x: Command, first: nat, m: nat)
    requires m > 0 && Transfers(x, first, m, false) && Offset(first + m) <= |data|
    ensures Delivered(data, x) == data[Offset(first)..Offset(first + m)]
  {}

  lemma Joined(data: seq<Byte>, a: nat, b: nat, c: nat)
    requires a <= b <= c <= |data|
    ensures data[a..b] + data[b..c] == data[a..c]
  {}

  /** Reads that cover a request deliver its bytes. */
  lemma {:induction false} CoveringReadsDeliver(data: seq<Byte>, commands: seq<Command>, first: nat, n: nat)
    requires Covers(commands, first, n, false) && Offset(first + n) <= |data|
    ensures DeliveredAll(data, commands) == data[Offset(first)..Offset(first + n)]
    decreases |commands|
  {
    if commands != [] {
      var m :| StartsWith(commands, first, m, n, false);
      CoveringReadsDeliver(data, commands[1..], first + m, n - m);
      OneDelivers(data, commands[0], first, m);
      Joined(data, Offset(first), Offset(first + m), Offset(first + n));
    }
  }

  lemma OneStores(data: seq<Byte>, x: Command, first: nat, m: nat, bytes: seq<Byte>)
    requires m > 0 && Transfers(x, first, m, true) && Offset(first + m) <= |data| && Offset(m) <= |bytes|
    ensures Taken(x, bytes) == Offset(m)
    ensures Stored(data, x, bytes[..Offset(m)]) == Replaced(data, Offset(first), bytes[..Offset(m)])
  {}

  lemma ReplacedTwice(data: seq<Byte>, at: nat, a: seq<Byte>, b: seq<Byte>)
    requires at + |a| + |b| <= |data|
    ensures Replaced(Replaced(data, at, a), at + |a|, b) == Replaced(data, at, a + b)
  {}

  /** Writes that cover a request replace its bytes. */
  lemma {:induction false} CoveringWritesStore(data: seq<Byte>, commands: seq<Command>, first: nat, n: nat,
                                               bytes: seq<Byte>)
    requires Covers(commands, first, n, true) && Offset(first + n) <= |data| && |bytes| == Offset(n)
    ensures StoredAll(data, commands, bytes) == Replaced(data, Offset(first), bytes)
    decreases |commands|
  {
    if commands == [] {
      assert Replaced(data, Offset(first), bytes) == data;
    } else {
      var m :| StartsWith(commands, first, m, n, true);
      var head, tail := bytes[..Offset(m)], bytes[Offset(m)..];
      OneStores(data, commands[0], first, m, bytes);
      CoveringWritesStore(Replaced(data, Offset(first), head), commands[1..], first + m, n - m, tail);
      ReplacedTwice(data, Offset(first), head, tail);
      assert head + tail == bytes;
    }
  }
}
