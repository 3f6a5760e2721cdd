/** The byte source a Sweeper pulls from (Go's io.Reader), modelled as a
    scripted sequence of answers. */
module Source {

  newtype byte = x: int | 0 <= x < 256

  /** The error values the Sweeper tells apart: nil, io.EOF,
      io.ErrNoProgress, and any other error, identified by a number. */
  datatype Err = Nil | EOF | NoProgress | Other(id: nat)

  /** One scripted answer: some bytes, and the error reported with them (Nil for none). */
  datatype Chunk = Chunk(data: seq<byte>, err: Err)

  /** The outcome of one Read call: the bytes written to the front of the
      destination, the error returned with them, and what is left of the script. */
  datatype Response = Response(data: seq<byte>, err: Err, rest: seq<Chunk>)

  /** Every byte the script will deliver, in order. A script of empty
      answers delivers nothing. */
  function Stream(script: seq<Chunk>): (s: seq<byte>)
    ensures (forall k :: 0 <= k < |script| ==> script[k].data == []) ==> s == []
  {
    if script == [] then [] else script[0].data + Stream(script[1..])
  }

  /** How much the script still holds: one per chunk plus its bytes. */
  function Weight(script: seq<Chunk>): (n: nat)
  {
    if script == [] then 0 else 1 + |script[0].data| + Weight(script[1..])
  }

  /** Weight counts the chunks and the bytes they deliver. */
  lemma {:induction false} WeightCounts(script: seq<Chunk>)
    ensures Weight(script) == |script| + |Stream(script)|
  {
    if script != [] {
      WeightCounts(script[1..]);
    }
  }

  /** One call Read(p) with len(p) == room. An exhausted script answers
      (0, io.EOF) for ever; a chunk longer than room is split: its first room
      bytes now without an error, the rest and the chunk's error on later calls. */
  function Respond(script: seq<Chunk>, room: nat): (resp: Response)
    ensures |resp.data| <= room
    ensures script == [] ==> resp == Response([], EOF, [])
    ensures script != [] && script[0] == Chunk([], Nil) ==> resp == Response([], Nil, script[1..])
  {
    if script == [] then Response([], EOF, [])
    else if |script[0].data| <= room then Response(script[0].data, script[0].err, script[1..])
    else
      var c := script[0];
      Response(c.data[..room], Nil, [Chunk(c.data[room..], c.err)] + script[1..])
  }

  /** A Read loses no byte and invents none: what it returns, followed by what
      the script still holds, is what the script held. Unless the script is
      exhausted or the destination empty, the script shrinks. */
  lemma {:induction false} RespondConserves(script: seq<Chunk>, room: nat)
    ensures var resp := Respond(script, room);
            resp.data + Stream(resp.rest) == Stream(script)
            && Weight(resp.rest) <= Weight(script)
            && (script != [] && room > 0 ==> Weight(resp.rest) < Weight(script))
  {
    if script != [] && |script[0].data| > room {
      var c := script[0];
      var rest := [Chunk(c.data[room..], c.err)] + script[1..];
      assert rest[1..] == script[1..];
      assert c.data[..room] + c.data[room..] == c.data;
    }
  }

  /** The reader a Sweeper is bound to. Each Read consumes the answer it gives. */
  class Reader {
    var script: seq<Chunk>

    constructor (script: seq<Chunk>)
      ensures this.script == script
    {
      this.script := script;
    }

    /** Read into a destination of room bytes: returns the bytes written to its front. */
    method Read(room: nat) returns (data: seq<byte>, err: Err)
      modifies this
      ensures Response(data, err, script) == Respond(old(script), room)
      ensures |data| <= room
    {
      var resp := Respond(script, room);
      data, err, script := resp.data, resp.err, resp.rest;
    }
  }
}
