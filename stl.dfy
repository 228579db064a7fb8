/**
 * The binary STL reader of src/stl.rs over the bytes of a file: an 80-byte header that is
 * skipped, a little-endian `u32` triangle count, then 50-byte records of a normal, three
 * vertices and two attribute bytes. Decoding one little-endian `f32` from four bytes is
 * the parameter `f32`.
 */
module Stl {
  import opened Wrappers
  import opened Vector
  import opened Bytes
  import P = Point
  import opened Materials
  import Triangles
  import Meshes

  /** The two ways the reader fails: too few bytes for a value, or a count mismatch. */
  datatype StlError = UnexpectedEof | InvalidInput

  const HeaderSize: nat := 80
  const CountEnd: nat := 84
  const RecordSize: nat := 48 + 2

  /** The three little-endian `f32`s starting at byte `at`. */
  function VertexAt(b: seq<byte>, at: nat, f32: seq<byte> -> real): Vec3
    requires at + 12 <= |b|
  {
    Vec3(f32(b[at..at + 4]), f32(b[at + 4..at + 8]), f32(b[at + 8..at + 12]))
  }

  /** Reading at `at` after dropping `k` bytes reads at `k + at`. */
  lemma VertexShift(b: seq<byte>, k: nat, at: nat, f32: seq<byte> -> real)
    requires k + at + 12 <= |b|
    ensures VertexAt(b[k..], at, f32) == VertexAt(b, k + at, f32)
  {
    assert b[k..][at..at + 4] == b[k + at..k + at + 4];
    assert b[k..][at + 4..at + 8] == b[k + at + 4..k + at + 8];
    assert b[k..][at + 8..at + 12] == b[k + at + 8..k + at + 12];
  }

  /** `read_point`: three `f32`s from the front of `b`, failing when fewer than 12 bytes remain. */
  function ReadPoint(b: seq<byte>, f32: seq<byte> -> real): (r: Result<(Vec3, seq<byte>), StlError>)
    ensures r.Ok? <==> |b| >= 12
    ensures r.Ok? ==> r.value.0 == VertexAt(b, 0, f32) && r.value.1 == b[12..]
  {
    if |b| < 4 then Err(UnexpectedEof)
    else
      var x := f32(b[..4]);
      if |b| < 8 then Err(UnexpectedEof)
      else
        var y := f32(b[4..8]);
        if |b| < 12 then Err(UnexpectedEof)
        else Ok((Vec3(x, y, f32(b[8..12])), b[12..]))
  }

  /** The three vertices of a record; the stored normal is read and dropped. */
  datatype Facet = Facet(p0: Vec3, p1: Vec3, p2: Vec3)

  /**
   * One record: four points are read, the first (the normal) is dropped. Any chunk of at
   * least 48 bytes decodes, so a full 50-byte record never fails.
   */
  function ReadFacet(chunk: seq<byte>, f32: seq<byte> -> real): (r: Result<Facet, StlError>)
    ensures r.Ok? <==> |chunk| >= 48
  {
    match ReadPoint(chunk, f32)
    case Err(e) => Err(e)
    case Ok((_, rest0)) =>
      match ReadPoint(rest0, f32)
      case Err(e) => Err(e)
      case Ok((p0, rest1)) =>
        assert rest1 == chunk[24..];
        match ReadPoint(rest1, f32)
        case Err(e) => Err(e)
        case Ok((p1, rest2)) =>
          assert rest2 == chunk[36..];
          match ReadPoint(rest2, f32)
          case Err(e) => Err(e)
          case Ok((p2, _)) =>
            Ok(Facet(p0, p1, p2))
  }

  /** A record's vertices are the `f32`s at offsets 12, 24 and 36; the normal at 0 is skipped. */
  lemma ReadFacetVertices(chunk: seq<byte>, f32: seq<byte> -> real)
    requires |chunk| >= 48
    ensures ReadFacet(chunk, f32) == Ok(Facet(VertexAt(chunk, 12, f32), VertexAt(chunk, 24, f32), VertexAt(chunk, 36, f32)))
  {
    VertexShift(chunk, 12, 0, f32);
    VertexShift(chunk, 24, 0, f32);
    VertexShift(chunk, 36, 0, f32);
    assert chunk[12..][12..] == chunk[24..];
    assert chunk[12..][12..][12..] == chunk[36..];
  }

  /** The facets of the records in `body`, in file order, up to end of file or a short record. */
  function Facets(body: seq<byte>, f32: seq<byte> -> real): seq<Facet>
    decreases |body|
  {
    if |body| < RecordSize then []
    else [ReadFacet(body[..RecordSize], f32).value] + Facets(body[RecordSize..], f32)
  }

  /** `Triangle::new` on each facet, in order. */
  function Triangulate(facets: seq<Facet>, sqrt: real -> real): (r: seq<Triangles.Triangle>)
    ensures |r| == |facets|
    ensures forall i :: 0 <= i < |r| ==>
      r[i].p0 == facets[i].p0 && r[i].p1 == facets[i].p1 && r[i].p2 == facets[i].p2 && r[i].material == None
  {
    seq(|facets|, i requires 0 <= i < |facets| => Triangles.New(facets[i].p0, facets[i].p1, facets[i].p2, sqrt))
  }

  /** Triangulating one more facet appends its triangle. */
  lemma TriangulateSnoc(facets: seq<Facet>, f: Facet, sqrt: real -> real)
    ensures Triangulate(facets + [f], sqrt) == Triangulate(facets, sqrt) + [Triangles.New(f.p0, f.p1, f.p2, sqrt)]
  {
    var fs := facets + [f];
    assert forall i :: 0 <= i < |facets| ==> fs[i] == facets[i];
  }

  /** `load_triangles_from_stl` on the bytes of the file. */
  function Load(file: seq<byte>, f32: seq<byte> -> real, sqrt: real -> real): Result<seq<Triangles.Triangle>, StlError>
  {
    if |file| < CountEnd then Err(UnexpectedEof)
    else
      var facets := Facets(file[CountEnd..], f32);
      if |facets| != U32Le(file[HeaderSize..CountEnd]) then Err(InvalidInput) else Ok(Triangulate(facets, sqrt))
  }

  /** Reading the record at byte `pos` keeps `done + Facets(rest) == all`. */
  lemma FacetAt(file: seq<byte>, pos: nat, next: nat, done: seq<Facet>, f: Facet, all: seq<Facet>, f32: seq<byte> -> real)
    requires next == pos + RecordSize <= |file| && f == ReadFacet(file[pos..next], f32).value
    requires done + Facets(file[pos..], f32) == all
    ensures (done + [f]) + Facets(file[next..], f32) == all
  {
    assert file[pos..][RecordSize..] == file[pos + RecordSize..];
    assert file[pos..][..RecordSize] == file[pos..pos + RecordSize];
    var rest := Facets(file[pos + RecordSize..], f32);
    assert Facets(file[pos..], f32) == [f] + rest;
    assert done + [f] + rest == done + ([f] + rest);
  }

  /**
   * `load_triangles_from_stl`: skips the header, reads the count, then reads 50-byte chunks
   * and pushes their triangles until a chunk comes back empty or short.
   */
  method LoadTrianglesFromStl(file: seq<byte>, f32: seq<byte> -> real, sqrt: real -> real)
    returns (r: Result<seq<Triangles.Triangle>, StlError>)
    ensures r == Load(file, f32, sqrt)
  {
    if |file| < CountEnd {
      return Err(UnexpectedEof);
    }
    var count := U32Le(file[HeaderSize..CountEnd]);
    var triangles: seq<Triangles.Triangle> := [];
    var read: nat := 0;
    var pos := CountEnd;
    ghost var facets: seq<Facet> := [];
    ghost var all := Facets(file[CountEnd..], f32);
    assert facets + all == all;
    while true
      invariant CountEnd <= pos <= |file| && read == |triangles| == |facets|
      invariant facets + Facets(file[pos..], f32) == all
      invariant triangles == Triangulate(facets, sqrt)
      decreases |file| - pos
    {
      var n := if |file| - pos < RecordSize then |file| - pos else RecordSize;
      if n == 0 {
        break;
      }
      if n < RecordSize {
        break;
      }
      var next := pos + RecordSize;
      var chunk := file[pos..next];
      var facet := ReadFacet(chunk, f32).value;
      FacetAt(file, pos, next, facets, facet, all, f32);
      TriangulateSnoc(facets, facet, sqrt);
      facets := facets + [facet];
      pos := next;
      var triangle := Triangles.New(facet.p0, facet.p1, facet.p2, sqrt);
      triangles := triangles + [triangle];
      read := read + 1;
    }
    assert facets == all;
    if read != count {
      return Err(InvalidInput);
    }
    return Ok(triangles);
  }

  /** `create_mesh_from_stl`: the loader's error, or a mesh of the loaded triangles. */
  function CreateMeshFromStl(file: seq<byte>, center: P.Point3, material: Material, f32: seq<byte> -> real, sqrt: real -> real)
    : (r: Result<Meshes.Mesh, StlError>)
    ensures r.Ok? <==> Load(file, f32, sqrt).Ok?
    ensures r.Err? ==> r.error == Load(file, f32, sqrt).error
    ensures r.Ok? ==> (r.value.center == center && r.value.material == material && Meshes.Valid(r.value)
      && |r.value.triangles| == U32Le(file[HeaderSize..CountEnd]))
  {
    match Load(file, f32, sqrt)
    case Err(e) => Err(e)
    case Ok(triangles) => Ok(Meshes.New(center, triangles, material, sqrt))
  }

  /** The number of records read is the whole number of 50-byte chunks in the body. */
  lemma {:induction false} FacetsCount(body: seq<byte>, f32: seq<byte> -> real)
    ensures |Facets(body, f32)| == |body| / RecordSize
    decreases |body|
  {
    if |body| >= RecordSize {
      FacetsCount(body[RecordSize..], f32);
    }
  }

  /** Reading a vertex inside a prefix reads the same bytes as in the whole sequence. */
  lemma VertexPrefix(b: seq<byte>, n: nat, at: nat, f32: seq<byte> -> real)
    requires at + 12 <= n <= |b|
    ensures VertexAt(b[..n], at, f32) == VertexAt(b, at, f32)
  {
    assert b[..n][at..at + 4] == b[at..at + 4];
    assert b[..n][at + 4..at + 8] == b[at + 4..at + 8];
    assert b[..n][at + 8..at + 12] == b[at + 8..at + 12];
  }

  /** The first facet is read from the first record. */
  lemma FirstFacet(body: seq<byte>, f32: seq<byte> -> real)
    requires RecordSize <= |body|
    ensures 0 < |Facets(body, f32)|
    ensures Facets(body, f32)[0] == Facet(VertexAt(body, 12, f32), VertexAt(body, 24, f32), VertexAt(body, 36, f32))
  {
    ReadFacetVertices(body[..RecordSize], f32);
    VertexPrefix(body, RecordSize, 12, f32);
    VertexPrefix(body, RecordSize, 24, f32);
    VertexPrefix(body, RecordSize, 36, f32);
  }

  /** Facet `i` of the body is facet `i - 1` of what follows the first record. */
  lemma LaterFacet(body: seq<byte>, f32: seq<byte> -> real, i: nat)
    requires RecordSize <= |body| && 0 < i && i - 1 < |Facets(body[RecordSize..], f32)|
    ensures i < |Facets(body, f32)| && Facets(body, f32)[i] == Facets(body[RecordSize..], f32)[i - 1]
  {
  }

  /** The vertices of a record at `at` after dropping `k` bytes are those at `here` = `k + at`. */
  lemma RecordShift(b: seq<byte>, k: nat, at: nat, here: nat, f32: seq<byte> -> real)
    requires here == k + at && here + 48 <= |b|
    ensures VertexAt(b[k..], at + 12, f32) == VertexAt(b, here + 12, f32)
    ensures VertexAt(b[k..], at + 24, f32) == VertexAt(b, here + 24, f32)
    ensures VertexAt(b[k..], at + 36, f32) == VertexAt(b, here + 36, f32)
  {
    VertexShift(b, k, at + 12, f32);
    VertexShift(b, k, at + 24, f32);
    VertexShift(b, k, at + 36, f32);
  }

  /** Facet `i` is read from record `i`: its vertices are the `f32`s at offsets 12, 24 and 36 of it. */
  lemma {:induction false} FacetsInOrder(body: seq<byte>, f32: seq<byte> -> real, i: nat)
    requires 50 * i + RecordSize <= |body|
    ensures i < |Facets(body, f32)|
    ensures var at := 50 * i;
      Facets(body, f32)[i] == Facet(VertexAt(body, at + 12, f32), VertexAt(body, at + 24, f32), VertexAt(body, at + 36, f32))
    decreases i
  {
    if i == 0 {
      FirstFacet(body, f32);
    } else {
      var rest := body[RecordSize..];
      var at := 50 * (i - 1);
      var here := 50 * i;
      assert here == 50 + at;
      FacetsInOrder(rest, f32, i - 1);
      LaterFacet(body, f32, i);
      RecordShift(body, RecordSize, at, here, f32);
    }
  }

  /**
   * The loader succeeds exactly when the file holds the 84 bytes up to the count and the
   * count equals the number of whole records after it; surplus records fail as well as
   * missing ones, a trailing fragment shorter than a record does not.
   */
  lemma LoadSucceeds(file: seq<byte>, f32: seq<byte> -> real, sqrt: real -> real)
    ensures Load(file, f32, sqrt).Ok? <==>
      |file| >= CountEnd && (|file| - CountEnd) / RecordSize == U32Le(file[HeaderSize..CountEnd])
    ensures Load(file, f32, sqrt).Err? ==>
      (Load(file, f32, sqrt).error == UnexpectedEof <==> |file| < CountEnd)
    ensures Load(file, f32, sqrt).Ok? ==> |Load(file, f32, sqrt).value| == U32Le(file[HeaderSize..CountEnd])
  {
    if |file| >= CountEnd {
      FacetsCount(file[CountEnd..], f32);
    }
  }

  /** Triangle `i` of a loaded file has the vertices stored in record `i`, in file order. */
  lemma LoadedVertices(file: seq<byte>, f32: seq<byte> -> real, sqrt: real -> real, i: nat)
    requires Load(file, f32, sqrt).Ok? && i < |Load(file, f32, sqrt).value|
    ensures var t := Load(file, f32, sqrt).value[i];
      var at := CountEnd + 50 * i;
      at + RecordSize <= |file| &&
      t.p0 == VertexAt(file, at + 12, f32) && t.p1 == VertexAt(file, at + 24, f32) && t.p2 == VertexAt(file, at + 36, f32)
  {
    var body := file[CountEnd..];
    var facets := Facets(body, f32);
    assert Load(file, f32, sqrt).value == Triangulate(facets, sqrt);
    FacetsCount(body, f32);
    LastRecordFits(|body|, i);
    FacetsInOrder(body, f32, i);
    var at := 50 * i;
    RecordShift(file, CountEnd, at, CountEnd + at, f32);
  }

  /** A record index below the number of whole records names a record inside the body. */
  lemma LastRecordFits(length: nat, i: nat)
    requires i < length / RecordSize
    ensures 50 * i + RecordSize <= length
  {
  }

  /** The bytes of the records one after another. */
  function Flatten(records: seq<seq<byte>>): (r: seq<byte>)
  {
    if records == [] then [] else Flatten(records[..|records| - 1]) + records[|records| - 1]
  }

  /** Records of 50 bytes each flatten to 50 bytes per record. */
  lemma {:induction false} FlattenLength(records: seq<seq<byte>>)
    requires forall k :: 0 <= k < |records| ==> |records[k]| == RecordSize
    ensures |Flatten(records)| == 50 * |records|
  {
    if records != [] {
      FlattenLength(records[..|records| - 1]);
    }
  }

  /** A binary STL file: header, the little-endian record count, the records, then `tail`. */
  function StlFile(header: seq<byte>, records: seq<seq<byte>>, tail: seq<byte>): (file: seq<byte>)
    requires |header| == HeaderSize && |records| < TwoTo32
  {
    header + U32LeBytes(|records|) + Flatten(records) + tail
  }

  /**
   * Writing a header, the record count and the records, followed by fewer bytes than a
   * record, gives a file that loads to one triangle per record.
   */
  lemma LoadStlFile(header: seq<byte>, records: seq<seq<byte>>, tail: seq<byte>, f32: seq<byte> -> real, sqrt: real -> real)
    requires |header| == HeaderSize && |records| < TwoTo32 && |tail| < RecordSize
    requires forall k :: 0 <= k < |records| ==> |records[k]| == RecordSize
    ensures Load(StlFile(header, records, tail), f32, sqrt).Ok?
    ensures |Load(StlFile(header, records, tail), f32, sqrt).value| == |records|
  {
    var file := StlFile(header, records, tail);
    var count := U32LeBytes(|records|);
    assert file[HeaderSize..CountEnd] == count;
    DecodeEncode(|records|);
    FlattenLength(records);
    assert |file| - CountEnd == 50 * |records| + |tail|;
    LoadSucceeds(file, f32, sqrt);
  }
}
