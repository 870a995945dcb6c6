/** pipe.c: what readers and writers do between two waits. */
module Pipe {
  import Fifo
  import opened PipeRuns

  class Pipe {
    const fifo: Fifo.Queue
    var readerCount: nat
    var writerCount: nat

    // Everything that was ever read and written.
    ghost var read: seq<char>
    ghost var written: seq<char>

    /** Nothing is lost, doubled or out of order. */
    ghost predicate Valid()
      reads this, fifo, fifo.buffer
    {
      fifo.Valid() && read + fifo.Contents() == written
    }

    constructor (page: array<char>)
      requires page.Length == 4096
      ensures Valid() && fresh(fifo) && fifo.buffer == page && read == [] && readerCount == 1 && writerCount == 1
      ensures fifo.Contents() == []
    {
      fifo := new Fifo.Queue(page);
      readerCount, writerCount := 1, 1;
      read, written := [], [];
    }

    /** pipe_read, from its entry or from its return from cond_wait. Without
        writers, who reads nothing has had everything. */
    method PipeRead(size: nat) returns (r: Outcome)
      requires Valid()
      modifies fifo, `read
      ensures Valid() && (r, fifo.Contents()) == ReadTurn(old(fifo.Contents()), writerCount, size)
      ensures r.Sleep? || r.Got?
      ensures r.Sleep? <==> old(fifo.Contents()) == [] && writerCount > 0
      ensures r.Sleep? ==> fifo.Contents() == []
      ensures r.Got? ==> old(fifo.Contents()) == r.data + fifo.Contents()
      ensures r.Got? ==> |r.data| == if size <= |old(fifo.Contents())| then size else |old(fifo.Contents())|
      ensures read == old(read) + if r.Got? then r.data else []
      ensures r == Got([]) && size > 0 ==> writerCount == 0 && read == written
    {
      hide Fifo.Ring, Fifo.Place;
      if fifo.size == 0 {
        return if writerCount == 0 then Got([]) else Sleep;
      }
      ghost var all := fifo.Contents();
      var data := fifo.Read(size);
      assert read + all == (read + data) + fifo.Contents();
      assert data == all[..|data|] && fifo.Contents() == all[|data|..];
      read := read + data;
      r := Got(data);
    }

    /** One turn of pipe_write's loop with data left to write, passing on no more
        than there is room for. */
    method PipeWrite(data: seq<char>) returns (r: Outcome)
      requires Valid() && data != []
      modifies fifo, fifo.buffer, `written
      ensures Valid()
      ensures (r, fifo.Contents()) == WriteTurn(fifo.buffer.Length, old(fifo.Contents()), readerCount, data)
      ensures r.Broken? <==> readerCount == 0
      ensures r.Sleep? <==> readerCount > 0 && |old(fifo.Contents())| == fifo.buffer.Length
      ensures r.Took? <==> readerCount > 0 && |old(fifo.Contents())| < fifo.buffer.Length
      ensures r.Took? ==> r.count == var room := fifo.buffer.Length - |old(fifo.Contents())|;
                                     if |data| <= room then |data| else room
      ensures r.Took? ==> 0 < r.count <= |data|
      ensures fifo.Contents() == old(fifo.Contents()) + if r.Took? then data[..r.count] else []
      ensures written == old(written) + if r.Took? then data[..r.count] else []
    {
      if readerCount == 0 {
        return Broken;
      }
      if fifo.size == fifo.buffer.Length {
        return Sleep;
      }
      var room := fifo.buffer.Length - fifo.size;
      var count := if |data| <= room then |data| else room;
      ghost var all := fifo.Contents();
      fifo.Write(data[..count]);
      assert read + (all + data[..count]) == (read + all) + data[..count];
      written := written + data[..count];
      r := Took(count);
    }

    /** The turn as the code has it, which passes on all that is left. The pipe is
        sound afterwards if and only if there was room for that. */
    method PipeWriteAll(data: seq<char>) returns (r: Outcome)
      requires Valid() && data != [] && readerCount > 0 && fifo.size < fifo.buffer.Length
      modifies fifo, fifo.buffer, `written
      ensures Valid() <==> |data| <= fifo.buffer.Length - old(fifo.size)
      ensures |data| <= fifo.buffer.Length - old(fifo.size) ==>
              (r, fifo.Contents()) == WriteTurn(fifo.buffer.Length, old(fifo.Contents()), readerCount, data)
      ensures |data| <= fifo.buffer.Length - old(fifo.size) ==> fifo.Contents() == old(fifo.Contents()) + data
      ensures r == Took(|data|) && written == old(written) + data
    {
      ghost var all := fifo.Contents();
      fifo.Write(data);
      assert read + (all + data) == (read + all) + data;
      assert data[..|data|] == data;
      written := written + data;
      r := Took(|data|);
    }
  }
}
