/// The dynamic call forwarder of `class LibRaw` (libraw.py): the constructor
/// with its version check, `__getattr__` with the handler it builds and caches
/// on the instance, and the handler itself.
///
/// The pure functions `GetAttr` and `Invoke` say what one attribute lookup and
/// one handler call do; the class `LibRaw` performs them on its own fields
/// and is proved against them. Two ghost records make the observable effects
/// on the shared object visible: `lookups`, the operation names whose symbols
/// were requested from the library, and `calls`, the native invocations.
module Forwarder {
  import opened Utf8
  import opened Native
  import opened Versions

  /** The native entry point behind operation `name`. */
  function Symbol(name: string): (s: string)
    ensures |s| == |name| + 7 && s[..7] == "libraw_" && s[7..] == name
  {
    "libraw_" + name
  }

  /** Distinct operation names never share a native symbol. */
  lemma SymbolInjective(m: string, n: string)
    requires Symbol(m) == Symbol(n)
    ensures m == n
  {
    assert m == Symbol(m)[7..];
  }

  /** A resolved native function, as the closure `handler` captures it. */
  datatype Handler = Handler(symbol: string, rawfun: seq<Arg> -> int)

  /** The handler `__getattr__` builds for `name`. */
  function Bind(lib: Library, name: string): (h: Handler)
    requires Symbol(name) in lib.symbols
    ensures h.symbol == Symbol(name) && h.rawfun == lib.symbols[Symbol(name)]
  {
    Handler(Symbol(name), lib.symbols[Symbol(name)])
  }

  /**
   * What attribute lookups change on an instance: the handlers cached on it
   * (`setattr(self, name, handler)`), and the names whose symbols were
   * requested from the library, in order.
   */
  datatype Attributes = Attributes(cache: map<string, Handler>, lookups: seq<string>)

  const Fresh := Attributes(map[], [])

  /** Every cached handler is the library's function for its name. */
  ghost predicate CacheSound(lib: Library, cache: map<string, Handler>) {
    forall n :: n in cache ==> Symbol(n) in lib.symbols && cache[n] == Bind(lib, n)
  }

  /**
   * The cache is sound and every cached name was resolved exactly once; a
   * name whose symbol exists is cached as soon as it has been looked up.
   */
  ghost predicate Coherent(lib: Library, a: Attributes) {
    && CacheSound(lib, a.cache)
    && (forall n :: n in a.cache ==> multiset(a.lookups)[n] == 1)
    && (forall k :: 0 <= k < |a.lookups| && Symbol(a.lookups[k]) in lib.symbols ==> a.lookups[k] in a.cache)
  }

  /**
   * `self.<name>` for an operation name: the handler cached on the instance
   * if there is one; otherwise `__getattr__`, which resolves `"libraw_" + name`
   * (an `AttributeError` if the library does not export it), builds the
   * handler and caches it.
   */
  function GetAttr(lib: Library, a: Attributes, name: string): (r: (Attributes, Result<Handler>))
    requires CacheSound(lib, a.cache)
    ensures CacheSound(lib, r.0.cache)
    ensures r.1.Ok? <==> Symbol(name) in lib.symbols
    ensures r.1.Ok? ==> r.1.value == Bind(lib, name) && r.0.cache == a.cache[name := Bind(lib, name)]
    ensures r.1.Err? ==> r.1.error == AttributeError(Symbol(name)) && r.0.cache == a.cache
    ensures name in a.cache ==> r.0 == a
    ensures name !in a.cache ==> r.0.lookups == a.lookups + [name]
  {
    if name in a.cache then
      (a, Ok(a.cache[name]))
    else if Symbol(name) !in lib.symbols then
      (a.(lookups := a.lookups + [name]), Err(AttributeError(Symbol(name))))
    else
      var h := Bind(lib, name);
      (Attributes(a.cache[name := h], a.lookups + [name]), Ok(h))
  }

  /** A lookup keeps the cache coherent with the library and the lookups made. */
  lemma GetAttrCoherent(lib: Library, a: Attributes, name: string)
    requires Coherent(lib, a)
    ensures Coherent(lib, GetAttr(lib, a, name).0)
  {
  }

  /** The instance state after looking up each of `names` in turn. */
  function Run(lib: Library, a: Attributes, names: seq<string>): (r: Attributes)
    requires CacheSound(lib, a.cache)
    ensures CacheSound(lib, r.cache)
    decreases |names|
  {
    if names == [] then a else Run(lib, GetAttr(lib, a, names[0]).0, names[1..])
  }

  /** The cache grows by exactly the looked-up names whose symbols exist. */
  lemma {:induction false} RunCache(lib: Library, a: Attributes, names: seq<string>)
    requires CacheSound(lib, a.cache)
    ensures Run(lib, a, names).cache.Keys
         == a.cache.Keys + (set n | n in names && Symbol(n) in lib.symbols)
    decreases |names|
  {
    if names != [] {
      var a' := GetAttr(lib, a, names[0]).0;
      RunCache(lib, a', names[1..]);
      assert forall n :: n in names <==> n == names[0] || n in names[1..];
    }
  }

  /**
   * How often the library is asked for the symbol of `n`: once in all if it
   * exists (the first time `n` is looked up), once per lookup if it does not.
   */
  lemma {:induction false} RunLookups(lib: Library, a: Attributes, names: seq<string>, n: string)
    requires CacheSound(lib, a.cache)
    ensures multiset(Run(lib, a, names).lookups)[n]
         == multiset(a.lookups)[n] +
            if n in a.cache then 0
            else if Symbol(n) in lib.symbols then (if n in names then 1 else 0)
            else multiset(names)[n]
    decreases |names|
  {
    if names != [] {
      var a' := GetAttr(lib, a, names[0]).0;
      RunLookups(lib, a', names[1..], n);
      assert multiset(a'.lookups)[n] == multiset(a.lookups)[n] + if names[0] == n && n !in a.cache then 1 else 0;
      assert n in a'.cache <==> n in a.cache || (n == names[0] && Symbol(n) in lib.symbols);
      assert names == [names[0]] + names[1..];
      assert multiset(names)[n] == multiset(names[1..])[n] + if names[0] == n then 1 else 0;
      assert n in names <==> n == names[0] || n in names[1..];
    }
  }

  /** On one instance, each operation whose symbol exists is resolved at most once. */
  lemma ResolvedAtMostOnce(lib: Library, names: seq<string>, n: string)
    requires Symbol(n) in lib.symbols
    ensures multiset(Run(lib, Fresh, names).lookups)[n] == if n in names then 1 else 0
  {
    RunLookups(lib, Fresh, names, n);
  }

  /** A native invocation: the symbol called and the arguments it received. */
  datatype NativeCall = NativeCall(symbol: string, args: seq<Arg>)

  /**
   * `handler(*args)`: converts text arguments to UTF-8, calls the native
   * function with the context `proc` first, and raises `strerror(e)` for a
   * non-zero return `e`.
   */
  function Invoke(lib: Library, proc: Address, h: Handler, args: seq<Arg>): (r: (NativeCall, Result<()>))
    ensures r.0.symbol == h.symbol
    ensures |r.0.args| == |args| + 1 && r.0.args[0] == Pointer(proc)
    ensures forall i :: 0 <= i < |args| && args[i].Text? ==> r.0.args[i + 1] == Bytes(Encode(args[i].text))
    ensures forall i :: 0 <= i < |args| && !args[i].Text? ==> r.0.args[i + 1] == args[i]
    ensures r.1.Ok? <==> h.rawfun(r.0.args) == 0
    ensures r.1.Err? ==> r.1.error.LibRawError? || r.1.error == UnicodeDecodeError
    ensures r.1.Err? && r.1.error.LibRawError? ==> Encode(r.1.error.message) == lib.errorText(h.rawfun(r.0.args))
    ensures var e := h.rawfun(r.0.args);
      e != 0 && Decode(lib.errorText(e)).Some? ==> r.1 == Err(LibRawError(Decode(lib.errorText(e)).value))
    ensures var e := h.rawfun(r.0.args);
      e != 0 && Decode(lib.errorText(e)).None? ==> r.1 == Err(UnicodeDecodeError)
  {
    var sent := [Pointer(proc)] + EncodeArgs(args);
    (NativeCall(h.symbol, sent), Check(lib, h.rawfun(sent)))
  }

  /** One binding instance, wrapping one native processing context. */
  class LibRaw {
    const lib: Library
    /** `self._proc`: the native context, never NULL. */
    const proc: Address
    /** The handlers stored on the instance by `__getattr__`, by operation name. */
    var cache: map<string, Handler>
    ghost var lookups: seq<string>
    ghost var calls: seq<NativeCall>

    ghost predicate Valid()
      reads this
    {
      proc != 0 && Coherent(lib, Attributes(cache, lookups))
    }

    /** The state right after `__init__`: the context is stored, nothing is cached yet. */
    constructor (lib: Library, proc: Address)
      requires proc != 0
      ensures Valid()
      ensures this.lib == lib && this.proc == proc
      ensures cache == map[] && lookups == [] && calls == []
    {
      this.lib := lib;
      this.proc := proc;
      cache := map[];
      lookups := [];
      calls := [];
    }

    /**
     * `LibRaw(flags)`: warns (and goes on) when the library is not of the
     * supported minor version, then creates the native context; a NULL
     * context fails on `.contents`.
     */
    static method New(lib: Library, flags: int) returns (warned: bool, r: Result<LibRaw>)
      ensures warned <==> VersionNumber(lib.versionCode).minor != SupportedMinor
      ensures r.Ok? <==> lib.init(flags) != 0
      ensures r.Err? ==> r.error == NullPointerAccess
      ensures r.Ok? ==> fresh(r.value) && r.value.Valid() && r.value.lib == lib
      ensures r.Ok? ==> r.value.proc == lib.init(flags) && r.value.cache == map[] && r.value.lookups == []
      ensures r.Ok? ==> r.value.calls == []
    {
      warned := !Compatible(lib.versionCode);
      var context := lib.init(flags);
      if context == 0 {
        r := Err(NullPointerAccess);
      } else {
        var made := new LibRaw(lib, context);
        r := Ok(made);
      }
    }

    /** `self.<name>`: a cached handler, or a new one that is then cached. */
    method Attribute(name: string) returns (r: Result<Handler>)
      requires Valid()
      modifies this`cache, this`lookups
      ensures Valid()
      ensures (Attributes(cache, lookups), r) == GetAttr(lib, old(Attributes(cache, lookups)), name)
    {
      GetAttrCoherent(lib, Attributes(cache, lookups), name);
      if name in cache {
        r := Ok(cache[name]);
        return;
      }
      lookups := lookups + [name];
      var symbol := "libraw_" + name;
      if symbol !in lib.symbols {
        r := Err(AttributeError(symbol));
        return;
      }
      var handler := Handler(symbol, lib.symbols[symbol]);
      cache := cache[name := handler];
      r := Ok(handler);
    }

    /** `handler(*args)` for a handler of this instance. */
    method Call(h: Handler, args: seq<Arg>) returns (r: Result<()>)
      modifies this`calls
      ensures calls == old(calls) + [Invoke(lib, proc, h, args).0]
      ensures r == Invoke(lib, proc, h, args).1
    {
      var sent := [Pointer(proc)] + EncodeArgs(args);
      var e := h.rawfun(sent);
      calls := calls + [NativeCall(h.symbol, sent)];
      r := Check(lib, e);
    }

    /** `self.<name>(*args)`: look the operation up, then call it. */
    method Forward(name: string, args: seq<Arg>) returns (r: Result<()>)
      requires Valid()
      modifies this`cache, this`lookups, this`calls
      ensures Valid()
      ensures var (a, found) := GetAttr(lib, old(Attributes(cache, lookups)), name);
        && Attributes(cache, lookups) == a
        && (found.Err? ==> r == Err(found.error) && calls == old(calls))
        && (found.Ok? ==> r == Invoke(lib, proc, found.value, args).1
                          && calls == old(calls) + [Invoke(lib, proc, found.value, args).0])
    {
      var found := Attribute(name);
      if found.Err? {
        r := Err(found.error);
        return;
      }
      r := Call(found.value, args);
    }
  }
}
