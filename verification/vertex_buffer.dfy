/**
  The vertex-count arithmetic of `VertexBuffer`: `createFromFloats` checks that
  the floats fill whole vertices, and `put` refuses a write that stops inside
  a vertex and otherwise uploads exactly the vertices written.

  A buffer's shadow writer is reduced to its byte position and the GPU side to
  the list of element ranges uploaded so far. The putter a caller passes to
  `put` is reduced to the number of bytes it writes.
*/
module VertexBuffers {
  import opened Wrappers

  /** Bytes in one `Float`. */
  const FloatBytes: nat := 4

  /** The layout of one vertex; only its size in bytes matters here. */
  datatype VertexFormat = VertexFormat(size: nat)

  /** One `uploadElements(start, count)` call. */
  datatype Upload = Upload(start: nat, count: nat)

  datatype VertexBuffer = VertexBuffer(
    format: VertexFormat,
    vertexCount: nat,
    writerPosition: nat,
    uploads: seq<Upload>)

  datatype VertexError =
    | DivisionByZero      // `%` or `/` by a format of size 0 (`ArithmeticException`)
    | SizeMismatch        // the `require` of `createFromFloats`
    | IncompleteVertices  // the `RuntimeException` of `put`

  /** A fresh buffer of `vertexCount` vertices, nothing written or uploaded. */
  function CreateDynamic(format: VertexFormat, vertexCount: nat): (vb: VertexBuffer)
    ensures vb.format == format && vb.vertexCount == vertexCount
    ensures vb.writerPosition == 0 && vb.uploads == []
  {
    VertexBuffer(format, vertexCount, 0, [])
  }

  /** A multiple of `d` divides back exactly. */
  lemma ExactQuotient(n: nat, d: nat)
    requires d > 0 && n % d == 0
    ensures (n / d) * d == n
  {
  }

  /**
    `put` with a putter that writes `written` bytes: the writer is rewound
    first, so only `written` decides the outcome. A partial vertex throws
    before anything is uploaded and leaves the writer where the putter
    stopped; otherwise the whole vertices are uploaded from element 0, the
    writer is rewound again and their number is returned.
  */
  function Put(vb: VertexBuffer, written: nat): (r: (VertexBuffer, Result<nat, VertexError>))
    ensures r.0.format == vb.format && r.0.vertexCount == vb.vertexCount
    ensures r.1 == Failure(DivisionByZero) <==> vb.format.size == 0
    ensures r.1 == Failure(IncompleteVertices) <==> vb.format.size > 0 && written % vb.format.size != 0
    ensures r.1.Success? <==> vb.format.size > 0 && written % vb.format.size == 0
    ensures r.1.Success? ==>
      && r.1.value * vb.format.size == written
      && r.0.uploads == vb.uploads + [Upload(0, r.1.value)]
      && r.0.writerPosition == 0
    ensures r.1.Failure? ==> r.0.uploads == vb.uploads && r.0.writerPosition == written
  {
    // rewound to 0, then advanced by the putter
    var w := vb.(writerPosition := written);
    if vb.format.size == 0 then (w, Failure(DivisionByZero))
    else if w.writerPosition % vb.format.size != 0 then (w, Failure(IncompleteVertices))
    else
      var count := w.writerPosition / vb.format.size;
      ExactQuotient(written, vb.format.size);
      (w.(uploads := w.uploads + [Upload(0, count)], writerPosition := 0), Success(count))
  }

  /** Where an earlier put left the writer makes no difference to the next one. */
  lemma PutRewindsFirst(vb: VertexBuffer, position: nat, written: nat)
    ensures Put(vb.(writerPosition := position), written) == Put(vb, written)
  {
  }

  /**
    `createFromFloats`: the floats must fill whole vertices; the buffer then
    holds exactly that many vertices and receives one upload covering all of
    them.
  */
  function CreateFromFloats(format: VertexFormat, data: seq<real>): (r: Result<VertexBuffer, VertexError>)
    ensures format.size == 0 ==> r == Failure(DivisionByZero)
    ensures format.size > 0 && (|data| * FloatBytes) % format.size != 0 ==> r == Failure(SizeMismatch)
    ensures r.Success? <==> format.size > 0 && (|data| * FloatBytes) % format.size == 0
    ensures r.Success? ==>
      && r.value.format == format
      && r.value.vertexCount * format.size == |data| * FloatBytes
      && r.value.uploads == [Upload(0, r.value.vertexCount)]
      && r.value.writerPosition == 0
  {
    var bytes := |data| * FloatBytes;
    if format.size == 0 then Failure(DivisionByZero)
    else if bytes % format.size != 0 then Failure(SizeMismatch)
    else
      var vb := CreateDynamic(format, bytes / format.size);
      Success(Put(vb, bytes).0)
  }

  /** Writing the same floats again re-uploads every vertex of a created buffer, and only those. */
  lemma RewriteCreated(format: VertexFormat, data: seq<real>)
    requires CreateFromFloats(format, data).Success?
    ensures var vb := CreateFromFloats(format, data).value;
      Put(vb, |data| * FloatBytes).1 == Success(vb.vertexCount)
  {
    var bytes := |data| * FloatBytes;
    var vb := CreateFromFloats(format, data).value;
    assert vb == Put(CreateDynamic(format, bytes / format.size), bytes).0;
  }
}
