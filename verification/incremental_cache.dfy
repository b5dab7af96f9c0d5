/** The incremental compilation cache: compiled code is reused for functions with the same key. */
module IncrementalCache {
  import opened Options

  type Isa = nat
  type Stencil = nat
  type Params = nat
  type Version = nat
  type Hash = seq<nat>
  type Blob = seq<nat>
  type CodeStencil = nat
  type Code = nat
  type Error = nat

  datatype Result<T> = Ok(value: T) | Err(error: Error)

  /** The part of a function that compilation depends on, its version marker, and the parameters applied afterwards. */
  datatype Function = Function(stencil: Stencil, version: Version, params: Params)

  datatype CachedFunc = CachedFunc(version: Version, stencil: CodeStencil)

  /** What the cache is built on. `compile` is also given the stencil only, and leaves the optimized one. */
  datatype Compiler = Compiler(
    version: Version,
    compile: (Isa, Stencil) -> Result<CodeStencil>,
    optimize: (Isa, Stencil) -> Stencil,
    hash: (Isa, Stencil) -> Hash,
    toBytes: CachedFunc -> Option<Blob>,
    fromBytes: Blob -> Option<CachedFunc>,
    applyParams: (CodeStencil, Params) -> Code)

  /** Different keys have different hashes, and what was serialized is read back. */
  ghost predicate CompilerOK(c: Compiler) {
    && (forall i, s, i', s' | c.hash(i, s) == c.hash(i', s') :: i == i' && s == s')
    && (forall x, b | c.toBytes(x) == Some(b) :: c.fromBytes(b) == Some(x))
  }

  /** The result of plain compilation. */
  ghost function Plain(c: Compiler, isa: Isa, f: Function): Result<Code> {
    match c.compile(isa, f.stencil)
    case Ok(code) => Ok(c.applyParams(code, f.params))
    case Err(e) => Err(e)
  }

  /** The blob cannot be read, is of another version, or holds the code of the function. */
  ghost predicate BlobOK(c: Compiler, isa: Isa, s: Stencil, blob: Blob) {
    match c.fromBytes(blob)
    case Some(cached) => cached.version == c.version ==> c.compile(isa, s) == Ok(cached.stencil)
    case None => true
  }

  ghost predicate StoreOK(c: Compiler, entries: map<Hash, Blob>) {
    forall isa, s | c.hash(isa, s) in entries :: BlobOK(c, isa, s, entries[c.hash(isa, s)])
  }

  /** A new entry for the key it was computed from. */
  /** The blob can be read and is of the version of the compiler. */
  ghost predicate Readable(c: Compiler, blob: Blob) {
    c.fromBytes(blob).Some? && c.fromBytes(blob).value.version == c.version
  }

  ghost predicate Usable(c: Compiler, entries: map<Hash, Blob>, key: Hash) {
    key in entries && Readable(c, entries[key])
  }

  /** A result that can be serialized is put in the store, and nothing else changes there. */
  ghost predicate Stored(c: Compiler, entries: map<Hash, Blob>, entries': map<Hash, Blob>, key: Hash,
      r: Result<CodeStencil>) {
    match if r.Ok? then c.toBytes(CachedFunc(c.version, r.value)) else None
    case Some(blob) => entries' == entries[key := blob]
    case None => entries' == entries
  }

  /** What was stored is reused. */
  lemma StoredUsable(c: Compiler, entries: map<Hash, Blob>, entries': map<Hash, Blob>, key: Hash,
      r: Result<CodeStencil>)
    requires CompilerOK(c) && Stored(c, entries, entries', key, r) && r.Ok?
             && c.toBytes(CachedFunc(c.version, r.value)).Some?
    ensures Usable(c, entries', key)
  {
    var x := CachedFunc(c.version, r.value);
    assert c.fromBytes(c.toBytes(x).value) == Some(x);
  }

  lemma StoreInsert(c: Compiler, entries: map<Hash, Blob>, isa: Isa, s: Stencil, code: CodeStencil, blob: Blob)
    requires CompilerOK(c) && StoreOK(c, entries) && c.compile(isa, s) == Ok(code)
    requires c.toBytes(CachedFunc(c.version, code)) == Some(blob)
    ensures StoreOK(c, entries[c.hash(isa, s) := blob])
  {
    var entries' := entries[c.hash(isa, s) := blob];
    forall i, t | c.hash(i, t) in entries' ensures BlobOK(c, i, t, entries'[c.hash(i, t)]) {
      if c.hash(i, t) != c.hash(isa, s) {
        assert BlobOK(c, i, t, entries[c.hash(i, t)]);
      }
    }
  }

  class CacheStore {
    var entries: map<Hash, Blob>

    constructor ()
      ensures entries == map[]
    {
      entries := map[];
    }

    method Get(key: Hash) returns (r: Option<Blob>)
      ensures r == if key in entries then Some(entries[key]) else None
    {
      r := if key in entries then Some(entries[key]) else None;
    }

    method Insert(key: Hash, blob: Blob)
      modifies this
      ensures entries == old(entries)[key := blob]
    {
      entries := entries[key := blob];
    }
  }

  class Context {
    const compiler: Compiler
    var func: Function
    var compiledCode: Option<Code>

    constructor (compiler: Compiler, func: Function)
      ensures this.compiler == compiler && this.func == func
    {
      this.compiler, this.func, compiledCode := compiler, func, None;
    }

    /** Compile the stencil; optimization changes the function in place, but not its parameters. */
    method CompileStencil(isa: Isa) returns (r: Result<CodeStencil>)
      modifies this`func
      ensures r == old(compiler.compile(isa, func.stencil)) && func ==
              old(func).(stencil := compiler.optimize(isa, old(func).stencil))
    {
      r := compiler.compile(isa, func.stencil);
      func := func.(stencil := compiler.optimize(isa, func.stencil));
    }

    method Compile(isa: Isa) returns (r: Result<Code>)
      modifies this
      ensures r == Plain(compiler, isa, old(func))
      ensures r.Ok? ==> compiledCode == Some(r.value)
    {
      var stencil := CompileStencil(isa);
      match stencil {
        case Err(e) => r := Err(e);
        case Ok(code) =>
          compiledCode := Some(compiler.applyParams(code, func.params));
          r := Ok(compiledCode.value);
      }
    }

    /** Finish from a cache entry, if it can be read and is of the version of the function. */
    method TryFinishRecompile(blob: Blob) returns (r: Option<Code>)
      requires func.version == compiler.version
      ensures r.Some? <==> Readable(compiler, blob)
      ensures r.Some? ==>
                forall isa | BlobOK(compiler, isa, func.stencil, blob) :: Plain(compiler, isa, func) == Ok(r.value)
    {
      match compiler.fromBytes(blob) {
        case Some(cached) =>
          r := if cached.version != func.version then None else Some(compiler.applyParams(cached.stencil, func.params));
        case None => r := None;
      }
    }

    /** As `Compile`, but reusing what is in the store. With `checks`, a reused result is compared with that of
    compiling. */
    method CompileWithCache(isa: Isa, checks: bool, store: CacheStore) returns (r: Result<Code>, reused: bool)
      requires CompilerOK(compiler) && func.version == compiler.version && StoreOK(compiler, store.entries)
      modifies this, store
      ensures r == Plain(compiler, isa, old(func)) && StoreOK(compiler, store.entries)
      ensures r.Ok? ==> compiledCode == Some(r.value)
      ensures var key := compiler.hash(isa, old(func).stencil);
              && (reused <==> Usable(compiler, old(store.entries), key))
              && (reused ==> store.entries == old(store.entries))
              && (!reused ==>
                    Stored(compiler, old(store.entries), store.entries, key, compiler.compile(isa, old(func).stencil)))
    {
      hide CompilerOK, BlobOK;
      var key := compiler.hash(isa, func.stencil);
      ghost var stencil0 := func.stencil;
      var blob := store.Get(key);
      if blob.Some? {
        assert BlobOK(compiler, isa, func.stencil, blob.value);
        var code := TryFinishRecompile(blob.value);
        if code.Some? {
          if checks {
            var actual := Compile(isa);
            assert actual == Ok(code.value);
            return actual, true;
          }
          compiledCode := code;
          return Ok(code.value), true;
        }
      }
      var stencil := CompileStencil(isa);
      match stencil {
        case Err(e) => return Err(e), false;
        case Ok(code) =>
          var bytes := compiler.toBytes(CachedFunc(compiler.version, code));
          if bytes.Some? {
            StoreInsert(compiler, store.entries, isa, stencil0, code, bytes.value);
            store.Insert(key, bytes.value);
          }
          compiledCode := Some(compiler.applyParams(code, func.params));
          return Ok(compiledCode.value), false;
      }
    }
  }

  datatype Job = Job(isa: Isa, func: Function, checks: bool)

  /** Any sequence of compilations that share a store, starting from an empty one: all results are those of
  plain compilation. */
  method CompileAll(compiler: Compiler, jobs: seq<Job>) returns (results: seq<Result<Code>>)
    requires CompilerOK(compiler) && forall i | 0 <= i < |jobs| :: jobs[i].func.version == compiler.version
    ensures |results| == |jobs|
            && forall i | 0 <= i < |jobs| :: results[i] == Plain(compiler, jobs[i].isa, jobs[i].func)
  {
    var store := new CacheStore();
    results := [];
    for i := 0 to |jobs|
      invariant fresh(store) && StoreOK(compiler, store.entries)
      invariant |results| == i && forall j | 0 <= j < i :: results[j] == Plain(compiler, jobs[j].isa, jobs[j].func)
    {
      var context := new Context(compiler, jobs[i].func);
      var r, _ := context.CompileWithCache(jobs[i].isa, jobs[i].checks, store);
      results := results + [r];
    }
  }
}
