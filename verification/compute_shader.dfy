/**
  The bookkeeping `ComputeShaderGL43` does around its GL calls: the
  memoised uniform-location cache, the shader-storage binding allocator, the
  image-binding guards, the encoding of uniform values (booleans, flattened
  vector arrays) and the image-access constants.

  The GL context is reduced to a program object whose uniform locations and
  storage-block indices are fixed tables, and every call the class makes is
  appended to an abstract trace.
*/
module ComputeShader {
  import opened Wrappers

  // ---------------------------------------------------------------- access modes

  datatype ImageAccess = Read | Write | ReadWrite

  const GlReadOnly: int := 0x88B8
  const GlWriteOnly: int := 0x88B9
  const GlReadWrite: int := 0x88BA

  /** `ImageAccess.gl()`. */
  function AccessGl(a: ImageAccess): (g: int)
    ensures a == Read <==> g == GlReadOnly
    ensures a == Write <==> g == GlWriteOnly
    ensures a == ReadWrite <==> g == GlReadWrite
  {
    match a
    case Read => GlReadOnly
    case Write => GlWriteOnly
    case ReadWrite => GlReadWrite
  }

  /** The access mode a GL constant stands for, if any. */
  function AccessFromGl(g: int): Option<ImageAccess> {
    if g == GlReadOnly then Some(Read)
    else if g == GlWriteOnly then Some(Write)
    else if g == GlReadWrite then Some(ReadWrite)
    else None
  }

  /** The three access modes map to three distinct constants, each read back as itself. */
  lemma AccessGlRoundTrip(a: ImageAccess, b: ImageAccess)
    ensures AccessFromGl(AccessGl(a)) == Some(a)
    ensures AccessGl(a) == AccessGl(b) ==> a == b
  {
  }

  // ---------------------------------------------------------------- the GL side

  /** A linked program object: its active uniforms and its shader-storage blocks. */
  datatype Program = Program(id: int, locations: map<string, int>, blocks: map<string, int>)

  /** `glGetUniformLocation`: -1 for a name the program does not use. */
  function Location(p: Program, uniform: string): int {
    if uniform in p.locations then p.locations[uniform] else -1
  }

  /** `glGetProgramResourceIndex` for a storage block; `GL_INVALID_INDEX` reads as the `Int` -1. */
  function ResourceIndex(p: Program, block: string): int {
    if block in p.blocks then p.blocks[block] else -1
  }

  /** The argument of one `glUniform*` call. */
  datatype UniformValue =
    | Ints(i: int)                            // glUniform1i
    | Floats(values: seq<real>)               // glUniform1f … glUniform4f, one value per component
    | FloatVectors(k: nat, values: seq<real>) // glUniform1fv … glUniform4fv, k components per element
    | Matrix(n: nat, values: seq<real>)       // glUniformMatrix3fv / glUniformMatrix4fv

  datatype GlCall =
    | UseProgram(program: int)
    | GetUniformLocation(program: int, uniform: string)
    | BindImageTexture(unit: int, texture: int, level: int, layered: bool, layer: int, access: int, format: int)
    | Uniform(location: int, value: UniformValue)
    | BindBuffer(buffer: int)
    | BindBufferBase(binding: int, buffer: int)
    | GetProgramResourceIndex(program: int, block: string)
    | ShaderStorageBlockBinding(program: int, blockIndex: int, binding: int)
    | DeleteProgram(program: int)

  datatype Warning =
    | MissingUniform(shader: string, uniform: string)
    | MissingResource(block: string)

  /** The first storage binding point the allocator hands out. */
  const FirstStorageBinding: int := 8

  datatype Shader = Shader(
    program: Program,
    name: string,
    ssbo: int,
    destroyed: bool,
    uniforms: map<string, int>,
    storageIndex: map<string, int>,
    trace: seq<GlCall>,
    warnings: seq<Warning>)

  /** A shader as constructed: nothing cached, nothing called yet. */
  function New(program: Program, name: string, ssbo: int): (s: Shader)
    ensures s.uniforms == map[] && s.storageIndex == map[] && s.trace == [] && !s.destroyed
    ensures CacheInv(s) && DenseSlots(s.storageIndex)
  {
    Shader(program, name, ssbo, false, map[], map[], [], [])
  }

  // ---------------------------------------------------------------- uniform cache

  /** How often `uniform`'s location was asked of the driver. */
  function Queries(t: seq<GlCall>, uniform: string): nat
    decreases |t|
  {
    if |t| == 0 then 0
    else Queries(t[..|t| - 1], uniform) + (if t[|t| - 1].GetUniformLocation? && t[|t| - 1].uniform == uniform then 1 else 0)
  }

  lemma {:induction false} QueriesAppend(a: seq<GlCall>, b: seq<GlCall>, uniform: string)
    ensures Queries(a + b, uniform) == Queries(a, uniform) + Queries(b, uniform)
    decreases |b|
  {
    if |b| > 0 {
      var b' := b[..|b| - 1];
      assert (a + b)[..|a + b| - 1] == a + b';
      assert (a + b)[|a + b| - 1] == b[|b| - 1];
      QueriesAppend(a, b', uniform);
      var last := if b[|b| - 1].GetUniformLocation? && b[|b| - 1].uniform == uniform then 1 else 0;
      assert Queries(b, uniform) == Queries(b', uniform) + last;
      assert Queries(a + b, uniform) == Queries(a + b', uniform) + last;
    } else {
      assert a + b == a;
    }
  }

  /** Trace segments that never ask for a uniform location. */
  predicate NoQueries(t: seq<GlCall>) {
    forall i :: 0 <= i < |t| ==> !t[i].GetUniformLocation?
  }

  lemma {:induction false} NoQueriesCount(t: seq<GlCall>, uniform: string)
    requires NoQueries(t)
    ensures Queries(t, uniform) == 0
    decreases |t|
  {
    if |t| > 0 {
      assert NoQueries(t[..|t| - 1]);
      NoQueriesCount(t[..|t| - 1], uniform);
    }
  }

  /**
    The cache holds exactly the names whose location was queried, each queried
    once, and each cached location is the program's.
  */
  ghost predicate CacheInv(s: Shader) {
    && (forall u :: Queries(s.trace, u) == if u in s.uniforms then 1 else 0)
    && (forall u :: u in s.uniforms ==> s.uniforms[u] == Location(s.program, u))
  }

  /** The location `uniformIndex` answers with: the cached one, or the program's. */
  function CachedLocation(s: Shader, uniform: string): int {
    if uniform in s.uniforms then s.uniforms[uniform] else Location(s.program, uniform)
  }

  /**
    `uniformIndex(uniform, query)`: a cached name costs no GL call; a new one
    is looked up once, cached, and warned about when the program lacks it
    and the caller did not merely ask.
  */
  function UniformIndex(s: Shader, uniform: string, query: bool): (r: (Shader, int))
    ensures r.1 == CachedLocation(s, uniform)
    ensures uniform in r.0.uniforms && r.0.uniforms[uniform] == r.1
    ensures r.0.uniforms.Keys == s.uniforms.Keys + {uniform}
    ensures forall u :: u in s.uniforms ==> r.0.uniforms[u] == s.uniforms[u]
    ensures uniform in s.uniforms ==> r.0 == s
    ensures uniform !in s.uniforms ==> r.0.trace == s.trace + [GetUniformLocation(s.program.id, uniform)]
    ensures r.0.warnings == s.warnings + [MissingUniform(s.name, uniform)]
        <==> uniform !in s.uniforms && Location(s.program, uniform) == -1 && !query
    ensures r.0.warnings == s.warnings
        <==> !(uniform !in s.uniforms && Location(s.program, uniform) == -1 && !query)
    ensures r.0.program == s.program && r.0.name == s.name && r.0.ssbo == s.ssbo
    ensures r.0.destroyed == s.destroyed && r.0.storageIndex == s.storageIndex
  {
    if uniform in s.uniforms then (s, s.uniforms[uniform])
    else
      var location := Location(s.program, uniform);
      var warn := if location == -1 && !query then [MissingUniform(s.name, uniform)] else [];
      (s.(uniforms := s.uniforms[uniform := location],
          trace := s.trace + [GetUniformLocation(s.program.id, uniform)],
          warnings := s.warnings + warn),
       location)
  }

  /** A second lookup of the same name answers the same and changes nothing. */
  lemma UniformIndexMemoised(s: Shader, uniform: string, query1: bool, query2: bool)
    ensures var (s1, l1) := UniformIndex(s, uniform, query1);
      UniformIndex(s1, uniform, query2) == (s1, l1)
  {
  }

  /** Under the cache invariant the answer is always the program's own location. */
  lemma UniformIndexAnswersProgram(s: Shader, uniform: string, query: bool)
    requires CacheInv(s)
    ensures UniformIndex(s, uniform, query).1 == Location(s.program, uniform)
  {
  }

  /** Every lookup keeps the invariant: each name is queried at most once. */
  lemma UniformIndexPreservesCache(s: Shader, uniform: string, query: bool)
    requires CacheInv(s)
    ensures CacheInv(UniformIndex(s, uniform, query).0)
    ensures forall u :: Queries(UniformIndex(s, uniform, query).0.trace, u) <= 1
  {
    var r := UniformIndex(s, uniform, query).0;
    if uniform !in s.uniforms {
      var call := [GetUniformLocation(s.program.id, uniform)];
      forall u ensures Queries(r.trace, u) == if u in r.uniforms then 1 else 0 {
        QueriesAppend(s.trace, call, u);
        assert call[..0] == [];
      }
    }
  }

  /** Appending calls that ask for no location keeps the cache invariant. */
  lemma ExtendPreservesCache(s: Shader, t: seq<GlCall>, r: Shader)
    requires CacheInv(s) && NoQueries(t)
    requires r.trace == s.trace + t && r.uniforms == s.uniforms && r.program == s.program
    ensures CacheInv(r)
  {
    forall u ensures Queries(s.trace + t, u) == Queries(s.trace, u) {
      QueriesAppend(s.trace, t, u);
      NoQueriesCount(t, u);
    }
  }

  // ---------------------------------------------------------------- uniform values

  /** A colour or a vector of 2 to 4 components. */
  datatype UniformArg =
    | ColorArg(r: real, g: real, b: real, a: real)
    | VectorArg(components: seq<real>)
    | IntArg(i: int)
    | BoolArg(flag: bool)
    | FloatArg(f: real)
    | MatrixArg(n: nat, entries: seq<real>)
    | VectorArrayArg(k: nat, vectors: seq<seq<real>>)
    | FloatArrayArg(values: seq<real>)

  /** Vectors have 2 to 4 components, matrices are 3x3 or 4x4, array elements share one width. */
  predicate ValidArg(a: UniformArg) {
    match a
    case VectorArg(c) => 2 <= |c| <= 4
    case MatrixArg(n, e) => (n == 3 || n == 4) && |e| == n * n
    case VectorArrayArg(k, vs) => 2 <= k <= 4 && forall i :: 0 <= i < |vs| ==> |vs[i]| == k
    case _ => true
  }

  /**
    Vector elements laid end to end, as the array setters fill their
    `FloatArray` with `floatValues[i * k + j]`.
  */
  function Flatten(rows: seq<seq<real>>, k: nat): (r: seq<real>)
    requires forall i :: 0 <= i < |rows| ==> |rows[i]| == k
    ensures |r| == |rows| * k
    ensures forall i, j :: 0 <= i < |rows| && 0 <= j < k ==> FlatIndex(i, j, k) < |r| && r[FlatIndex(i, j, k)] == rows[i][j]
    decreases |rows|
  {
    if |rows| == 0 then []
    else
      var n := |rows| - 1;
      var prefix := Flatten(rows[..n], k);
      assert |prefix| == n * k;
      var r := prefix + rows[n];
      forall i, j | 0 <= i < |rows| && 0 <= j < k
        ensures FlatIndex(i, j, k) < |r| && r[FlatIndex(i, j, k)] == rows[i][j]
      {
        if i < n {
          FlatIndexBound(i, j, k, n);
          assert rows[..n][i] == rows[i];
        } else {
          assert FlatIndex(i, j, k) == n * k + j;
        }
      }
      r
  }

  function FlatIndex(i: nat, j: nat, k: nat): nat {
    i * k + j
  }

  lemma FlatIndexBound(i: nat, j: nat, k: nat, n: nat)
    requires i < n && j < k
    ensures FlatIndex(i, j, k) < n * k
  {
    var d: nat := n - i - 1;
    assert (i + 1) * k == i * k + k;
    assert n * k == (i + 1) * k + d * k;
  }

  /** Cuts a flat array of `n` elements back into elements of `k` components. */
  function Unflatten(flat: seq<real>, k: nat, n: nat): (rows: seq<seq<real>>)
    requires |flat| == n * k
    ensures |rows| == n
    decreases n
  {
    if n == 0 then []
    else
      assert n * k == (n - 1) * k + k;
      Unflatten(flat[..(n - 1) * k], k, n - 1) + [flat[(n - 1) * k..]]
  }

  /** Flattening loses nothing: the elements can be cut back out of the flat array. */
  lemma {:induction false} UnflattenFlatten(rows: seq<seq<real>>, k: nat)
    requires forall i :: 0 <= i < |rows| ==> |rows[i]| == k
    ensures Unflatten(Flatten(rows, k), k, |rows|) == rows
    decreases |rows|
  {
    if |rows| > 0 {
      var n := |rows| - 1;
      var flat := Flatten(rows, k);
      var prefix := Flatten(rows[..n], k);
      assert flat == prefix + rows[n];
      assert n * k + k == |rows| * k;
      assert flat[..n * k] == prefix;
      assert flat[n * k..] == rows[n];
      UnflattenFlatten(rows[..n], k);
      assert rows == rows[..n] + [rows[n]];
    }
  }

  /** The argument of the `glUniform*` call each setter overload makes. */
  function Encode(a: UniformArg): (v: UniformValue)
    requires ValidArg(a)
    ensures a.BoolArg? ==> (v == Ints(1) <==> a.flag) && (v == Ints(0) <==> !a.flag)
    ensures a.VectorArrayArg? ==> v.FloatVectors? && v.k == a.k && |v.values| == |a.vectors| * a.k
    ensures a.VectorArrayArg? ==> Unflatten(v.values, a.k, |a.vectors|) == a.vectors
    ensures a.IntArg? ==> v == Ints(a.i)
  {
    match a
    case ColorArg(r, g, b, al) => Floats([r, g, b, al])
    case VectorArg(c) => Floats(c)
    case IntArg(i) => Ints(i)
    case BoolArg(b) => Ints(if b then 1 else 0)
    case FloatArg(f) => Floats([f])
    case MatrixArg(n, e) => Matrix(n, e)
    case VectorArrayArg(k, vs) => UnflattenFlatten(vs, k); FloatVectors(k, Flatten(vs, k))
    case FloatArrayArg(vs) => FloatVectors(1, vs)
  }

  /**
    One `uniform(name, value)` overload: bind the program, look the name up,
    and upload only when the location is not -1.
  */
  function SetUniform(s: Shader, name: string, arg: UniformArg): (r: Shader)
    requires ValidArg(arg)
    ensures |s.trace| < |r.trace| && r.trace[..|s.trace| + 1] == s.trace + [UseProgram(s.program.id)]
    ensures forall i :: |s.trace| <= i < |r.trace| ==>
      (r.trace[i].Uniform? <==> CachedLocation(s, name) != -1 && i == |r.trace| - 1)
    ensures CachedLocation(s, name) != -1 ==> r.trace[|r.trace| - 1] == Uniform(CachedLocation(s, name), Encode(arg))
    ensures r.program == s.program && r.storageIndex == s.storageIndex
  {
    var bound := s.(trace := s.trace + [UseProgram(s.program.id)]);
    var (s1, index) := UniformIndex(bound, name, false);
    assert bound.uniforms == s.uniforms;
    if index != -1 then s1.(trace := s1.trace + [Uniform(index, Encode(arg))]) else s1
  }

  /** A uniform the program lacks is never uploaded, however often it is set. */
  lemma MissingUniformNeverUploaded(s: Shader, name: string, arg: UniformArg)
    requires CacheInv(s) && ValidArg(arg)
    requires Location(s.program, name) == -1
    ensures var r := SetUniform(s, name, arg);
      forall i :: |s.trace| <= i < |r.trace| ==> !r.trace[i].Uniform?
  {
  }

  lemma SetUniformPreservesCache(s: Shader, name: string, arg: UniformArg)
    requires CacheInv(s) && ValidArg(arg)
    ensures CacheInv(SetUniform(s, name, arg))
  {
    var bound := s.(trace := s.trace + [UseProgram(s.program.id)]);
    ExtendPreservesCache(s, [UseProgram(s.program.id)], bound);
    UniformIndexPreservesCache(bound, name, false);
    var (s1, index) := UniformIndex(bound, name, false);
    if index != -1 {
      ExtendPreservesCache(s1, [Uniform(index, Encode(arg))], SetUniform(s, name, arg));
    }
  }

  // ---------------------------------------------------------------- images

  /** An image format: its component count and its GL internal format. */
  datatype ImageFormat = ImageFormat(componentCount: nat, glFormat: int)

  /** What an `image` overload binds. */
  datatype ImageTarget =
    | ColorBufferImage(texture: int, format: ImageFormat)
    | ArrayLayerImage(texture: int, format: ImageFormat, layer: int)
    | ArrayImage(texture: int, format: ImageFormat)
    | CubemapImage(texture: int, format: ImageFormat)

  datatype ImageError = UnsupportedFormat(componentCount: nat)

  /** The `layered` and `layer` arguments of `glBindImageTexture`, as the source passes them. */
  function ImageBindingAsWritten(t: ImageTarget): (b: (bool, int))
    ensures b.1 == 0
    ensures b.0 <==> t.ArrayImage? || t.CubemapImage?
  {
    match t
    case ColorBufferImage(_, _) => (false, 0)
    case ArrayLayerImage(_, _, _) => (false, 0)
    case ArrayImage(_, _) => (true, 0)
    case CubemapImage(_, _) => (true, 0)
  }

  /** Binding one layer of an array texture binds layer 0 whichever layer was asked for. */
  lemma ArrayLayerIgnored(texture: int, format: ImageFormat)
    ensures ImageBindingAsWritten(ArrayLayerImage(texture, format, 3)) == (false, 0)
    ensures ImageBindingAsWritten(ArrayLayerImage(texture, format, 3)).1 != 3
  {
  }

  /** The binding the single-layer overload evidently means: the requested layer, not layered. */
  function ImageBinding(t: ImageTarget): (b: (bool, int))
    ensures b.0 <==> t.ArrayImage? || t.CubemapImage?
    ensures t.ArrayLayerImage? ==> b.1 == t.layer
    ensures !t.ArrayLayerImage? ==> b.1 == 0
  {
    match t
    case ArrayLayerImage(_, _, layer) => (false, layer)
    case _ => ImageBindingAsWritten(t)
  }

  /** The two differ only on a single-layer binding of a layer other than 0. */
  lemma ImageBindingAgrees(t: ImageTarget)
    ensures ImageBinding(t) == ImageBindingAsWritten(t) <==> !(t.ArrayLayerImage? && t.layer != 0)
  {
  }

  /** The GL calls an `image` overload makes before setting its uniform, given the `layered` and `layer` arguments. */
  function BindCalls(s: Shader, unit: int, target: ImageTarget, access: ImageAccess, b: (bool, int)): seq<GlCall> {
    [UseProgram(s.program.id),
     BindImageTexture(unit, target.texture, 0, b.0, b.1, AccessGl(access), target.format.glFormat)]
  }

  /**
    The shape every `image` overload shares: a 3-component format is refused
    before any GL call; otherwise the program is bound, the texture bound to
    image unit `unit` with layering `b`, and the sampler uniform set to the
    unit (without the -1 check the other setters make).
  */
  function BindImage(s: Shader, name: string, unit: int, target: ImageTarget, access: ImageAccess, b: (bool, int)): (r: Result<Shader, ImageError>)
    ensures r.Failure? <==> target.format.componentCount == 3
    ensures r.Failure? ==> r.error == UnsupportedFormat(3)
    ensures r.Success? ==>
      var head := s.trace + BindCalls(s, unit, target, access, b);
      && |head| < |r.value.trace|
      && r.value.trace[..|head|] == head
      && r.value.trace[|r.value.trace| - 1] == Uniform(CachedLocation(s, name), Ints(unit))
    ensures r.Success? ==> r.value.program == s.program && r.value.storageIndex == s.storageIndex
  {
    if target.format.componentCount != 3 then
      var bound := s.(trace := s.trace + BindCalls(s, unit, target, access, b));
      var (s1, index) := UniformIndex(bound, name, false);
      Success(s1.(trace := s1.trace + [Uniform(index, Ints(unit))]))
    else
      Failure(UnsupportedFormat(target.format.componentCount))
  }

  /**
    The four `image` overloads as written: each binds layer 0, and only the
    whole-array and cubemap overloads bind layered.
  */
  function Image(s: Shader, name: string, unit: int, target: ImageTarget, access: ImageAccess): (r: Result<Shader, ImageError>)
    ensures r.Failure? <==> target.format.componentCount == 3
    ensures r.Failure? ==> r.error == UnsupportedFormat(3)
    ensures r.Success? ==>
      var layered := target.ArrayImage? || target.CubemapImage?;
      var head := s.trace + [UseProgram(s.program.id),
                             BindImageTexture(unit, target.texture, 0, layered, 0, AccessGl(access), target.format.glFormat)];
      && |head| < |r.value.trace|
      && r.value.trace[..|head|] == head
      && r.value.trace[|r.value.trace| - 1] == Uniform(CachedLocation(s, name), Ints(unit))
    ensures r.Success? ==> r.value.program == s.program && r.value.storageIndex == s.storageIndex
  {
    BindImage(s, name, unit, target, access, ImageBindingAsWritten(target))
  }

  /** The `image` overloads with the single-layer overload binding the layer it was asked for. */
  function ImageCorrected(s: Shader, name: string, unit: int, target: ImageTarget, access: ImageAccess): (r: Result<Shader, ImageError>)
    ensures r.Failure? <==> target.format.componentCount == 3
    ensures r.Success? ==>
      var layered := target.ArrayImage? || target.CubemapImage?;
      var layer := if target.ArrayLayerImage? then target.layer else 0;
      var head := s.trace + [UseProgram(s.program.id),
                             BindImageTexture(unit, target.texture, 0, layered, layer, AccessGl(access), target.format.glFormat)];
      && |head| < |r.value.trace|
      && r.value.trace[..|head|] == head
      && r.value.trace[|r.value.trace| - 1] == Uniform(CachedLocation(s, name), Ints(unit))
  {
    BindImage(s, name, unit, target, access, ImageBinding(target))
  }

  /** The corrected overloads make the same calls as the written ones except for a single layer other than 0. */
  lemma ImageCorrectedAgrees(s: Shader, name: string, unit: int, target: ImageTarget, access: ImageAccess)
    ensures !(target.ArrayLayerImage? && target.layer != 0) ==>
      ImageCorrected(s, name, unit, target, access) == Image(s, name, unit, target, access)
    ensures target.ArrayLayerImage? && target.layer != 0 && target.format.componentCount != 3 ==>
      ImageCorrected(s, name, unit, target, access) != Image(s, name, unit, target, access)
  {
    ImageBindingAgrees(target);
    if target.ArrayLayerImage? && target.layer != 0 && target.format.componentCount != 3 {
      var i := |s.trace| + 1;
      assert ImageCorrected(s, name, unit, target, access).value.trace[i].layer == target.layer;
      assert Image(s, name, unit, target, access).value.trace[i].layer == 0;
    }
  }

  lemma BindImagePreservesCache(s: Shader, name: string, unit: int, target: ImageTarget, access: ImageAccess, b: (bool, int))
    requires CacheInv(s)
    ensures BindImage(s, name, unit, target, access, b).Success? ==> CacheInv(BindImage(s, name, unit, target, access, b).value)
  {
    if target.format.componentCount != 3 {
      var calls := BindCalls(s, unit, target, access, b);
      var bound := s.(trace := s.trace + calls);
      ExtendPreservesCache(s, calls, bound);
      UniformIndexPreservesCache(bound, name, false);
      var (s1, index) := UniformIndex(bound, name, false);
      ExtendPreservesCache(s1, [Uniform(index, Ints(unit))], BindImage(s, name, unit, target, access, b).value);
    }
  }

  lemma ImagePreservesCache(s: Shader, name: string, unit: int, target: ImageTarget, access: ImageAccess)
    requires CacheInv(s)
    ensures Image(s, name, unit, target, access).Success? ==> CacheInv(Image(s, name, unit, target, access).value)
    ensures ImageCorrected(s, name, unit, target, access).Success? ==> CacheInv(ImageCorrected(s, name, unit, target, access).value)
  {
    BindImagePreservesCache(s, name, unit, target, access, ImageBindingAsWritten(target));
    BindImagePreservesCache(s, name, unit, target, access, ImageBinding(target));
  }


  // ---------------------------------------------------------------- storage buffers

  predicate InSlotRange(m: map<string, int>, v: int) {
    FirstStorageBinding <= v < FirstStorageBinding + |m|
  }

  /** Binding points handed out so far: distinct, and exactly 8, 9, … up to the number of names. */
  ghost predicate DenseSlots(m: map<string, int>) {
    && (forall n :: n in m ==> InSlotRange(m, m[n]))
    && (forall a, b :: a in m && b in m && a != b ==> m[a] != m[b])
    && (forall v :: InSlotRange(m, v) ==> v in m.Values)
  }

  /**
    The `getOrPut` on the storage index: a known name keeps its binding
    point, a new one takes the next, `size + 8`.
  */
  function Allocate(m: map<string, int>, name: string): (m': map<string, int>)
    ensures name in m' && m'.Keys == m.Keys + {name}
    ensures forall n :: n in m ==> m'[n] == m[n]
    ensures name !in m ==> m'[name] == FirstStorageBinding + |m|
  {
    if name in m then m else m[name := |m| + FirstStorageBinding]
  }

  /** Binding points stay distinct and consecutive from 8, whatever names come in. */
  lemma AllocateKeepsSlotsDense(m: map<string, int>, name: string)
    requires DenseSlots(m)
    ensures DenseSlots(Allocate(m, name))
  {
    if name !in m {
      FreshSlotDense(m, name);
    }
  }

  /** A new name takes the next binding point, which no other name holds. */
  lemma FreshSlotDense(m: map<string, int>, name: string)
    requires DenseSlots(m) && name !in m
    ensures DenseSlots(m[name := |m| + FirstStorageBinding])
  {
    var m' := m[name := |m| + FirstStorageBinding];
    assert m'.Keys == m.Keys + {name};
    assert |m'| == |m| + 1;
    forall n | n in m' ensures InSlotRange(m', m'[n]) {
      if n != name {
        assert InSlotRange(m, m[n]);
      }
    }
    FreshSlotCovers(m, name);
  }

  lemma FreshSlotCovers(m: map<string, int>, name: string)
    requires DenseSlots(m) && name !in m
    ensures var m' := m[name := |m| + FirstStorageBinding];
      forall v :: InSlotRange(m', v) ==> v in m'.Values
  {
    var m' := m[name := |m| + FirstStorageBinding];
    assert |m'| == |m| + 1;
    forall v | InSlotRange(m', v) ensures v in m'.Values {
      if v < FirstStorageBinding + |m| {
        assert InSlotRange(m, v);
        var n :| n in m && m[n] == v;
        assert m'[n] == v;
      } else {
        assert m'[name] == v;
      }
    }
  }

  /**
    `buffer(name, vertexBuffer)`: binds the buffer to the name's binding point
    and ties the program's storage block of that name to it, or warns when
    the program has no such block.
  */
  function Buffer(s: Shader, name: string, buffer: int): (r: Shader)
    ensures r.storageIndex == Allocate(s.storageIndex, name)
    ensures var slot := r.storageIndex[name];
      var block := ResourceIndex(s.program, name);
      r.trace == s.trace + [BindBuffer(s.ssbo), BindBufferBase(slot, buffer), GetProgramResourceIndex(s.program.id, name)]
                         + (if block >= 0 then [ShaderStorageBlockBinding(s.program.id, block, slot)] else [])
    ensures r.warnings == s.warnings + [MissingResource(name)] <==> ResourceIndex(s.program, name) < 0
    ensures r.warnings == s.warnings <==> ResourceIndex(s.program, name) >= 0
    ensures r.program == s.program && r.uniforms == s.uniforms
  {
    var slots := Allocate(s.storageIndex, name);
    var index := slots[name];
    var block := ResourceIndex(s.program, name);
    var t := s.trace + [BindBuffer(s.ssbo), BindBufferBase(index, buffer), GetProgramResourceIndex(s.program.id, name)];
    var binding := if block >= 0 then [ShaderStorageBlockBinding(s.program.id, block, index)] else [];
    var warn := if block >= 0 then [] else [MissingResource(name)];
    s.(storageIndex := slots, trace := t + binding, warnings := s.warnings + warn)
  }

  /** A name keeps its binding point: binding it, or any other name, again leaves it where it was. */
  lemma BufferSlotStable(s: Shader, name: string, other: string, b1: int, b2: int)
    ensures var s1 := Buffer(s, name, b1);
      Buffer(s1, other, b2).storageIndex[name] == s1.storageIndex[name]
  {
  }

  lemma BufferPreservesCache(s: Shader, name: string, buffer: int)
    requires CacheInv(s)
    ensures CacheInv(Buffer(s, name, buffer))
  {
    var slot := Allocate(s.storageIndex, name)[name];
    var block := ResourceIndex(s.program, name);
    var calls := [BindBuffer(s.ssbo), BindBufferBase(slot, buffer), GetProgramResourceIndex(s.program.id, name)]
                 + (if block >= 0 then [ShaderStorageBlockBinding(s.program.id, block, slot)] else []);
    ExtendPreservesCache(s, calls, Buffer(s, name, buffer));
  }

  // ---------------------------------------------------------------- destroy

  /** `destroy()` as written: the guard flag is read but never set. */
  function DestroyAsWritten(s: Shader): (r: Shader)
    ensures !s.destroyed ==> r.trace == s.trace + [DeleteProgram(s.program.id)] && !r.destroyed
    ensures s.destroyed ==> r == s
  {
    if !s.destroyed then s.(trace := s.trace + [DeleteProgram(s.program.id)]) else s
  }

  /** Destroying twice deletes the program object twice. */
  lemma DestroyTwiceDeletesTwice(s: Shader)
    requires !s.destroyed
    ensures DestroyAsWritten(DestroyAsWritten(s)).trace
         == s.trace + [DeleteProgram(s.program.id), DeleteProgram(s.program.id)]
  {
  }

  /** `destroy()` with the flag set, as its guard intends. */
  function Destroy(s: Shader): (r: Shader)
    ensures r.destroyed
    ensures !s.destroyed ==> r.trace == s.trace + [DeleteProgram(s.program.id)]
    ensures s.destroyed ==> r == s
  {
    if !s.destroyed then s.(destroyed := true, trace := s.trace + [DeleteProgram(s.program.id)]) else s
  }

  /** A second `destroy` does nothing. */
  lemma DestroyIdempotent(s: Shader)
    ensures Destroy(Destroy(s)) == Destroy(s)
  {
  }
}
