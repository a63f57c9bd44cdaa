/**
 The append-only score cache of eval/injection_guard_order.py: a file of one record per line, and the map that a
 fresh start loads from it.

 The JSON encoding is a parameter: any `Codec` whose encodings hold no newline and have no decodable proper prefix.
 */
module GuardCache {
  import opened Common

  type byte = x: int | 0 <= x < 256

  type Bytes = seq<byte>

  const NEWLINE: byte := 10

  /** `fields` are the record's keys; `payload` stands for the values the cache never looks at. */
  datatype Rec = Rec(fields: set<string>, key: string, ok: bool, payload: string)

  const FIELDS: set<string> := {"key", "model", "kind", "item_ids", "score", "status", "http", "latency_ms", "ts"}

  datatype Codec = Codec(encode: Rec -> Bytes, decode: Bytes -> Option<Rec>)

  /** What the cache needs of `json.dumps` and `json.loads`. */
  ghost predicate Lawful(c: Codec) {
    forall r: Rec ::
      && NEWLINE !in c.encode(r) && |c.encode(r)| > 0 && c.decode(c.encode(r)) == Some(r)
      && forall n :: 0 <= n < |c.encode(r)| ==> c.decode(c.encode(r)[..n]) == None
  }

  type Records = map<string, Rec>

  /** `_keep`: an ok record is never replaced. */
  function Keep(records: Records, r: Rec): Records {
    if r.key in records && records[r.key].ok then records else records[r.key := r]
  }

  function HasOk(records: Records, key: string): bool {
    key in records && records[key].ok
  }

  /** What a load has seen so far: the map and the number of undecodable lines. */
  datatype Loaded = Loaded(records: Records, skipped: nat)

  function TakeLine(c: Codec, state: Loaded, line: Bytes): Loaded {
    match c.decode(line)
    case None => state.(skipped := state.skipped + 1)
    case Some(r) => state.(records := Keep(state.records, r))
  }

  // ---------- lines ----------

  /** The bytes after the last newline. */
  function Tail(file: Bytes): Bytes {
    if file == [] || file[|file| - 1] == NEWLINE then [] else Tail(file[..|file| - 1]) + [file[|file| - 1]]
  }

  /** The lines that end in a newline. */
  function Complete(file: Bytes): seq<Bytes> {
    if file == [] then [] else
      var init := file[..|file| - 1];
      if file[|file| - 1] == NEWLINE then Complete(init) + [Tail(init)] else Complete(init)
  }

  /** `splitlines`: a torn last line counts, nothing follows a final newline. */
  function Lines(file: Bytes): seq<Bytes> {
    Complete(file) + if Tail(file) == [] then [] else [Tail(file)]
  }

  predicate EndsOpen(file: Bytes) {
    file != [] && file[|file| - 1] != NEWLINE
  }

  lemma {:induction false} OpenTail(file: Bytes)
    ensures EndsOpen(file) <==> Tail(file) != []
  {
  }

  lemma {:induction false} AppendPlain(file: Bytes, p: Bytes)
    requires NEWLINE !in p
    ensures Tail(file + p) == Tail(file) + p && Complete(file + p) == Complete(file)
  {
    if p == [] {
      assert file + p == file;
    } else {
      var init := p[..|p| - 1];
      assert (file + p)[..|file + p| - 1] == file + init;
      AppendPlain(file, init);
      assert Tail(file) + p == Tail(file) + init + [p[|p| - 1]];
    }
  }

  lemma AppendNewline(file: Bytes)
    ensures Tail(file + [NEWLINE]) == [] && Complete(file + [NEWLINE]) == Complete(file) + [Tail(file)]
  {
    assert (file + [NEWLINE])[..|file|] == file;
  }

  // ---------- loading ----------

  function LoadLines(c: Codec, lines: seq<Bytes>): Loaded {
    if lines == [] then Loaded(map[], 0) else TakeLine(c, LoadLines(c, lines[..|lines| - 1]), lines[|lines| - 1])
  }

  /** What a fresh start reads from the file. */
  function Load(c: Codec, file: Bytes): Loaded {
    LoadLines(c, Lines(file))
  }

  lemma LoadStep(c: Codec, lines: seq<Bytes>, line: Bytes)
    ensures LoadLines(c, lines + [line]) == TakeLine(c, LoadLines(c, lines), line)
  {
    assert (lines + [line])[..|lines|] == lines;
  }

  /** The newline that `append` writes first when the file it opened ends in a torn line. */
  function Repair(file: Bytes, checked: bool): Bytes {
    if !checked && EndsOpen(file) then [NEWLINE] else []
  }

  /** Everything one `append` writes. */
  function Written(c: Codec, file: Bytes, checked: bool, r: Rec): Bytes {
    Repair(file, checked) + c.encode(r) + [NEWLINE]
  }

  /** Once a process has appended, the file ends in a newline for as long as that process lives. */
  ghost predicate Checked(file: Bytes, checked: bool) {
    checked ==> !EndsOpen(file)
  }

  lemma RepairKeepsLines(file: Bytes, checked: bool)
    requires Checked(file, checked)
    ensures var f := file + Repair(file, checked); Lines(f) == Lines(file) == Complete(f) && Tail(f) == []
  {
    OpenTail(file);
    if !checked && EndsOpen(file) {
      AppendNewline(file);
    } else {
      assert file + Repair(file, checked) == file;
    }
  }

  lemma PlainOnClosed(c: Codec, f: Bytes, p: Bytes)
    requires Tail(f) == [] && NEWLINE !in p
    ensures Load(c, f + p) == if p == [] then Load(c, f) else TakeLine(c, Load(c, f), p)
    ensures Load(c, f + p + [NEWLINE]) == TakeLine(c, Load(c, f), p)
  {
    AppendPlain(f, p);
    AppendNewline(f + p);
    assert Tail(f) + p == p;
    assert Lines(f) == Complete(f);
    LoadStep(c, Complete(f), p);
    if p == [] {
      assert f + p == f;
    } else {
      assert Lines(f + p) == Complete(f) + [p];
    }
    assert Lines(f + p + [NEWLINE]) == Complete(f) + [p];
  }

  lemma EncodingPrefix(c: Codec, r: Rec, n: nat)
    requires Lawful(c) && n <= |c.encode(r)|
    ensures NEWLINE !in c.encode(r)[..n]
    ensures c.decode(c.encode(r)[..n]) == if n < |c.encode(r)| then None else Some(r)
  {
    var e := c.encode(r);
    assert e[..|e|] == e;
    forall b | b in e[..n] ensures b in e {
    }
    if n < |e| {
      assert c.decode(c.encode(r)[..n]) == None;
    }
  }

  /** The first `n` bytes of what an append writes. */
  function Torn(c: Codec, file: Bytes, checked: bool, r: Rec, n: nat): Bytes {
    Written(c, file, checked, r)[..MinNat(n, |Written(c, file, checked, r)|)]
  }

  /** A crash after any number of bytes is harmless: a fresh start on the file loads the map from before the
      append as long as the encoding is incomplete, and the map after it otherwise. */
  lemma TornAppendIsHarmless(c: Codec, file: Bytes, checked: bool, r: Rec, n: nat)
    requires Lawful(c) && Checked(file, checked) && n <= |Written(c, file, checked, r)|
    ensures var before, after := Load(c, file), Load(c, file + Torn(c, file, checked, r, n));
      && after.records == (if n < |Repair(file, checked) + c.encode(r)| then before.records
            else Keep(before.records, r))
      && before.skipped <= after.skipped <= before.skipped + 1
  {
    var w, repair, e := Written(c, file, checked, r), Repair(file, checked), c.encode(r);
    var f := file + repair;
    RepairKeepsLines(file, checked);
    assert Load(c, f) == Load(c, file);
    if n <= |repair| {
      assert n == 0 || n == |repair|;
      assert file + w[..0] == file && w[..|repair|] == repair;
    } else if n <= |repair| + |e| {
      var k := n - |repair|;
      assert file + w[..n] == f + e[..k];
      EncodingPrefix(c, r, k);
      PlainOnClosed(c, f, e[..k]);
    } else {
      assert file + w[..n] == f + e + [NEWLINE];
      EncodingPrefix(c, r, |e|);
      assert e[..|e|] == e;
      PlainOnClosed(c, f, e);
    }
  }

  /** A whole append loads as one more record, and leaves the file closed. */
  lemma AppendLoads(c: Codec, file: Bytes, checked: bool, r: Rec)
    requires Lawful(c) && Checked(file, checked)
    ensures var f := file + Written(c, file, checked, r);
      Load(c, f).records == Keep(Load(c, file).records, r) && Load(c, f).skipped == Load(c, file).skipped
            && !EndsOpen(f)
  {
    var w := Written(c, file, checked, r);
    var f, e := file + Repair(file, checked), c.encode(r);
    RepairKeepsLines(file, checked);
    assert file + w == f + e + [NEWLINE];
    EncodingPrefix(c, r, |e|);
    assert e[..|e|] == e;
    PlainOnClosed(c, f, e);
  }

  // ---------- the cache object ----------

  class LogFile {
    var bytes: Bytes

    constructor (bytes: Bytes)
      ensures this.bytes == bytes
    {
      this.bytes := bytes;
    }
  }

  class Cache {
    const codec: Codec
    const path: LogFile?
    var records: Records
    var checked: bool
    var skippedLines: nat

    /** The map in memory is what a fresh start on the file would load. */
    ghost predicate Valid()
      reads this, path
    {
      path != null ==> records == Load(codec, path.bytes).records && Checked(path.bytes, checked)
    }

    constructor (codec: Codec, path: LogFile?)
      ensures this.codec == codec && this.path == path && Valid() && !checked
      ensures Loaded(records, skippedLines) == if path == null then Loaded(map[], 0) else Load(codec, path.bytes)
    {
      this.codec, this.path := codec, path;
      records, checked, skippedLines := map[], false, 0;
      new;
      if path != null {
        var lines := Lines(path.bytes);
        for k := 0 to |lines|
          invariant this.path == path && this.codec == codec && !checked
          invariant Loaded(records, skippedLines) == LoadLines(codec, lines[..k])
        {
          assert lines[..k + 1][..k] == lines[..k];
          match codec.decode(lines[k])
          case None => skippedLines := skippedLines + 1;
          case Some(rec) => records := Keep(records, rec);
        }
        assert lines[..|lines|] == lines;
      }
    }

    /** A record with other fields than the agreed ones is refused before anything changes. */
    method Append(rec: Rec) returns (ok: bool)
      requires Lawful(codec) && Valid()
      modifies this`records, this`checked, path
      ensures Valid() && ok == (rec.fields == FIELDS)
      ensures records == if ok then Keep(old(records), rec) else old(records)
      ensures path != null ==>
                path.bytes == old(path.bytes) + if ok then old(Written(codec, path.bytes, checked, rec)) else []
      ensures checked == (old(checked) || (ok && path != null))
    {
      if rec.fields != FIELDS {
        return false;
      }
      ok := true;
      records := Keep(records, rec);
      if path == null {
        return;
      }
      AppendLoads(codec, path.bytes, checked, rec);
      ghost var before := path.bytes;
      if !checked {
        checked := true;
        if |path.bytes| > 0 && path.bytes[|path.bytes| - 1] != NEWLINE {
          path.bytes := path.bytes + [NEWLINE];
        }
      }
      assert path.bytes == before + Repair(before, old(checked));
      path.bytes := path.bytes + (codec.encode(rec) + [NEWLINE]);
      assert path.bytes == before + Written(codec, before, old(checked), rec);
    }
  }

  // ---------- whole histories ----------

  /** One append, or an append cut off by a crash after `n` bytes and followed by a fresh start. */
  datatype Op = Whole(rec: Rec) | Cut(rec: Rec, n: nat)

  datatype Disk = Disk(file: Bytes, checked: bool)

  function Apply(c: Codec, d: Disk, op: Op): Disk {
    match op
    case Whole(r) => Disk(d.file + Written(c, d.file, d.checked, r), true)
    case Cut(r, n) => Disk(d.file + Torn(c, d.file, d.checked, r, n), false)
  }

  function ApplyAll(c: Codec, d: Disk, ops: seq<Op>): Disk {
    if ops == [] then d else Apply(c, ApplyAll(c, d, ops[..|ops| - 1]), ops[|ops| - 1])
  }

  /** The record reached the file with its whole encoding. */
  predicate Arrives(c: Codec, d: Disk, op: Op) {
    op.Whole? || op.n >= |Repair(d.file, d.checked) + c.encode(op.rec)|
  }

  /** The map that the arriving records give, kept one after the other. */
  function KeptAll(c: Codec, d: Disk, ops: seq<Op>): Records {
    if ops == [] then Load(c, d.file).records else
      var init, op := ops[..|ops| - 1], ops[|ops| - 1];
      if Arrives(c, ApplyAll(c, d, init), op) then Keep(KeptAll(c, d, init), op.rec) else KeptAll(c, d, init)
  }

  lemma StepLoads(c: Codec, d: Disk, op: Op)
    requires Lawful(c) && Checked(d.file, d.checked)
    ensures var d' := Apply(c, d, op);
      && Checked(d'.file, d'.checked)
      && Load(c, d'.file).records ==
         if Arrives(c, d, op) then Keep(Load(c, d.file).records, op.rec) else Load(c, d.file).records
  {
    match op
    case Whole(r) => AppendLoads(c, d.file, d.checked, r);
    case Cut(r, n) =>
      var w := Written(c, d.file, d.checked, r);
      TornAppendIsHarmless(c, d.file, d.checked, r, MinNat(n, |w|));
  }

  /** After every history of appends, crashes and restarts, on any file to begin with, a fresh start loads exactly
      the records that arrived, and a record that was ok at any point is still there unchanged. */
  lemma {:induction false} HistoryLoads(c: Codec, d: Disk, ops: seq<Op>)
    requires Lawful(c) && Checked(d.file, d.checked)
    ensures var d' := ApplyAll(c, d, ops);
      && Checked(d'.file, d'.checked)
      && Load(c, d'.file).records == KeptAll(c, d, ops)
    ensures forall key :: HasOk(Load(c, d.file).records, key) ==>
              key in KeptAll(c, d, ops) && KeptAll(c, d, ops)[key] == Load(c, d.file).records[key]
  {
    if ops != [] {
      var init := ops[..|ops| - 1];
      HistoryLoads(c, d, init);
      StepLoads(c, ApplyAll(c, d, init), ops[|ops| - 1]);
    }
  }
}
