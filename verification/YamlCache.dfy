/** The mtime cache of a YAML file (app/storage.py: _load_yaml_file, _atomic_write). Parsing is a foreign function. */
module YamlCache {
  import opened Options

  datatype Cached<D> = Cached(mtime: int, data: D)

  /** A file with its modification time as the file system reports it, and the cache entry for it. */
  datatype File<D> = File(text: Option<string>, mtime: int, entry: Option<Cached<D>>)

  /** What the file says now. */
  function Truth<D>(f: File<D>, parse: string -> D): Option<D>
  {
    if f.text.Some? then Some(parse(f.text.value)) else None
  }

  function Load<D>(f: File<D>, parse: string -> D): (File<D>, Option<D>)
  {
    if f.text.None? then (f.(entry := None), None)
    else if f.entry.Some? && f.entry.value.mtime == f.mtime then (f, Some(f.entry.value.data))
    else
      var data := parse(f.text.value);
      (f.(entry := Some(Cached(f.mtime, data))), Some(data))
  }

  /** `_atomic_write`; the new modification time may be any, the old one included. */
  function AtomicWrite<D>(f: File<D>, text: string, mtime: int): File<D>
  {
    File(Some(text), mtime, None)
  }

  /** Another program writes or removes the file: nothing invalidates the cache. */
  function ForeignWrite<D>(f: File<D>, text: Option<string>, mtime: int): File<D>
  {
    f.(text := text, mtime := mtime)
  }

  datatype Op = DoLoad | Write(content: string, mtime: int) | Foreign(text: Option<string>, mtime: int)

  function Next<D>(f: File<D>, op: Op, parse: string -> D): File<D>
  {
    match op
    case DoLoad => Load(f, parse).0
    case Write(content, mtime) => AtomicWrite(f, content, mtime)
    case Foreign(text, mtime) => ForeignWrite(f, text, mtime)
  }

  function After<D>(f: File<D>, ops: seq<Op>, parse: string -> D): File<D>
  {
    if ops == [] then f else Next(After(f, ops[..|ops| - 1], parse), ops[|ops| - 1], parse)
  }

  /** A foreign write that the cache can notice: the cached entry, if any, carries another modification time. */
  predicate Noticed<D>(f: File<D>, op: Op)
  {
    op.Foreign? && op.text.Some? && f.entry.Some? ==> op.mtime != f.entry.value.mtime
  }

  predicate AllNoticed<D>(f: File<D>, ops: seq<Op>, parse: string -> D)
  {
    forall i :: 0 <= i < |ops| ==> Noticed(After(f, ops[..i], parse), ops[i])
  }

  predicate Agrees<D(==)>(f: File<D>, parse: string -> D)
  {
    f.text.Some? && f.entry.Some? && f.entry.value.mtime == f.mtime ==> f.entry.value.data == parse(f.text.value)
  }

  lemma {:induction false} CacheAgrees<D>(f: File<D>, ops: seq<Op>, parse: string -> D)
    requires f.entry == None && AllNoticed(f, ops, parse)
    ensures Agrees(After(f, ops, parse), parse)
  {
    if ops != [] {
      var n := |ops| - 1;
      assert forall i :: 0 <= i < n ==> ops[..n][..i] == ops[..i];
      CacheAgrees(f, ops[..n], parse);
      assert Noticed(After(f, ops[..n], parse), ops[n]);
    }
  }

  /**
   * After any run whose foreign writes the cache can notice (in particular after any run of atomic writes, whatever
   * modification times they get), a load returns what the file says.
   */
  lemma LoadTellsTheTruth<D>(f: File<D>, ops: seq<Op>, parse: string -> D)
    requires f.entry == None
    requires AllNoticed(f, ops, parse) || forall i :: 0 <= i < |ops| ==> !ops[i].Foreign?
    ensures var g := After(f, ops, parse);
            Load(g, parse).1 == Truth(g, parse)
  {
    assert AllNoticed(f, ops, parse);
    CacheAgrees(f, ops, parse);
  }

  /** A foreign write that keeps the cached modification time is not seen: exactly then, and if it changes the data. */
  lemma UnnoticedExactly<D>(f: File<D>, text: string, mtime: int, parse: string -> D)
    ensures var g := ForeignWrite(f, Some(text), mtime);
            Load(g, parse).1 == Truth(g, parse) <==>
            !(f.entry.Some? && f.entry.value.mtime == mtime && f.entry.value.data != parse(text))
  {
  }

  class YamlFile<D(==)> {
    var text: Option<string>
    var mtime: int
    var entry: Option<Cached<D>>
    const parse: string -> D

    function View(): File<D>
      reads this
    {
      File(text, mtime, entry)
    }

    constructor (text: Option<string>, mtime: int, parse: string -> D)
      ensures View() == File(text, mtime, None) && this.parse == parse
    {
      this.text, this.mtime, this.entry, this.parse := text, mtime, None, parse;
    }

    /** `_load_yaml_file`: what the file says, through the cache. */
    method LoadFile() returns (data: Option<D>)
      requires Agrees(View(), parse)
      modifies this`entry
      ensures (View(), data) == Load(old(View()), parse)
      ensures Agrees(View(), parse) && data == Truth(View(), parse)
      ensures entry == if text.Some? then Some(Cached(mtime, parse(text.value))) else None
    {
      if text.None? {
        entry := None;
        return None;
      }
      if entry.Some? && entry.value.mtime == mtime {
        return Some(entry.value.data);
      }
      var parsed := parse(text.value);
      entry := Some(Cached(mtime, parsed));
      data := Some(parsed);
    }

    method WriteFile(content: string, stamp: int)
      modifies this
      ensures View() == AtomicWrite(old(View()), content, stamp) && Agrees(View(), parse)
    {
      text, mtime := Some(content), stamp;
      entry := None;
    }
  }
}
