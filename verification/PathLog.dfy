/**
 The runtime that the instrumented code calls: a buffer of path records per thread,
 written out when it is full, when its thread ends and when the process exits.
 */
module PathLog {
  import opened Basics

  const BUFFER_SIZE: nat := 32

  // ----- what the operations do to a thread's buffer -----

  function Held<T>(buffer: Option<seq<T>>): seq<T> {
    match buffer
    case None => []
    case Some(b) => b
  }

  /** A record is retired: the new buffer, and what is written. */
  function Retire<T>(buffer: Option<seq<T>>, rec: T): (r: (seq<T>, seq<T>))
    ensures r.1 + r.0 == Held(buffer) + [rec]
    ensures r.1 == [] || |r.1| == BUFFER_SIZE
    ensures |Held(buffer)| < BUFFER_SIZE ==> |r.0| < BUFFER_SIZE
    ensures |Held(buffer)| < 31 ==> r.1 == []
    ensures |Held(buffer)| == 31 ==> r.0 == [] && |r.1| == 32
  {
    var b := Held(buffer) + [rec];
    if |b| == BUFFER_SIZE then ([], b) else (b, [])
  }

  // ----- the code -----

  /** `struct path_records`. */
  class PathRecords<T(0)> {
    const recs: array<T>
    var len: nat

    /** A fresh, zeroed mapping. */
    constructor ()
      ensures fresh(recs) && recs.Length == BUFFER_SIZE && len == 0
    {
      recs := new T[BUFFER_SIZE];
      len := 0;
    }
  }

  /** The thread-local state, and the stream of records the thread has written. */
  class ThreadLog<T(0)> {
    var recordBuffer: PathRecords?<T>
    var written: seq<T>

    constructor ()
      ensures Valid() && Contents() == None && written == []
    {
      recordBuffer, written := null, [];
    }

    ghost predicate Valid()
      reads this, recordBuffer
    {
      recordBuffer != null ==> recordBuffer.recs.Length == BUFFER_SIZE && recordBuffer.len < BUFFER_SIZE
    }

    ghost function Contents(): Option<seq<T>>
      requires Valid()
      reads this, recordBuffer, if recordBuffer == null then {} else {recordBuffer.recs}
    {
      if recordBuffer == null then None else Some(recordBuffer.recs[..recordBuffer.len])
    }

    method EnsureThreadInit() returns (buf: PathRecords<T>)
      requires Valid()
      modifies this`recordBuffer
      ensures Valid() && recordBuffer == buf
      ensures old(recordBuffer) != null ==> buf == old(recordBuffer)
      ensures old(recordBuffer) == null ==> fresh(buf) && fresh(buf.recs) && buf.len == 0
    {
      if recordBuffer != null {
        buf := recordBuffer;
        return;
      }
      buf := new PathRecords<T>();
      recordBuffer := buf;
    }

    /** Writes all of `buf` and empties it. */
    method FlushBuffer(buf: PathRecords<T>)
      requires buf.recs.Length == BUFFER_SIZE && buf.len <= BUFFER_SIZE
      modifies this`written, buf
      ensures written == old(written) + old(buf.recs[..buf.len]) && buf.len == 0
    {
      written := written + buf.recs[..buf.len];
      buf.len := 0;
    }

    /** Forgets the buffer, without writing it. */
    method DropBuffer()
      modifies this`recordBuffer
      ensures Valid() && Contents() == None
    {
      recordBuffer := null;
    }

    method FinishBuffer(buf: PathRecords<T>)
      requires Valid() && recordBuffer == buf
      modifies this, buf
      ensures Valid() && Contents() == None
      ensures written == old(written) + old(Held(Contents()))
    {
      FlushBuffer(buf);
      DropBuffer();
    }

    method FinishMainThreadBuffer()
      requires Valid()
      modifies this, recordBuffer
      ensures Valid() && Contents() == None
      ensures written == old(written) + old(Held(Contents()))
    {
      if recordBuffer != null {
        FinishBuffer(recordBuffer);
      }
    }

    /** `llvm_increment_path_count`. */
    method IncrementPathCount(rec: T)
      requires Valid()
      modifies this, recordBuffer, if recordBuffer == null then {} else {recordBuffer.recs}
      ensures Valid()
      ensures Contents() == Some(Retire(old(Contents()), rec).0)
      ensures written == old(written) + Retire(old(Contents()), rec).1
    {
      var buf := EnsureThreadInit();
      buf.recs[buf.len] := rec;
      buf.len := buf.len + 1;
      assert buf.recs[..buf.len] == old(Held(Contents())) + [rec];
      if BUFFER_SIZE == buf.len {
        FlushBuffer(buf);
      }
    }
  }
}
