/** The scaffold helpers of the command line: the two renderings of a data
    source entry (as manifest text and as an immutable map), the ABI file
    map, and the walk that writes a generated scaffold tree to disk, modelled
    as a depth-first ordering of the file-system operations it issues. */
module ScaffoldHelpers {
  import opened Results
  import opened Text
  import opened EthereumManifest

  /** The five fields of a data source entry. */
  datatype DataSource<V> = DataSource(kind: V, name: V, network: V, source: V, mapping: V)

  // ---------------------------------------------------------------------------
  // addDatasource: the entry as manifest text
  // ---------------------------------------------------------------------------

  /** `addDatasource(kind, name, network, source, mapping)`: five lines, the
      first starting with `  -kind: `, the others indented by four spaces, and
      a final line break. The arguments are interpolated as they are, line
      breaks included. */
  function AddDatasource(kind: string, name: string, network: string, source: string, mapping: string): (r: string)
    ensures r == ("  -kind: " + kind) + "\n" + ("    name: " + name) + "\n" + ("    network: " + network)
      + "\n" + ("    source: " + source) + "\n" + ("    mapping: " + mapping) + "\n"
  {
    var t := DatasourceTemplate(DataSource(kind, name, network, source, mapping));
    assert t[..2] == t[..1] + [t[1]];
    assert t[..3] == t[..2] + [t[2]];
    assert t[..4] == t[..3] + [t[3]];
    assert t[..5] == t[..4] + [t[4]];
    assert t == t[..5] + [t[5]];
    JoinSnoc(t[..1], t[1], "\n");
    JoinSnoc(t[..2], t[2], "\n");
    JoinSnoc(t[..3], t[3], "\n");
    JoinSnoc(t[..4], t[4], "\n");
    JoinSnoc(t[..5], t[5], "\n");
    Join(t, "\n")
  }

  function DatasourceTemplate(d: DataSource<string>): seq<string>
  {
    ["  -kind: " + d.kind, "    name: " + d.name, "    network: " + d.network,
     "    source: " + d.source, "    mapping: " + d.mapping, ""]
  }

  /** Reads a data source entry back into its fields. */
  function ParseDatasource(text: string): Result<DataSource<string>>
  {
    var ls := Lines(text);
    if |ls| != 6 || ls[5] != "" then Err("a data source entry has five lines and a line break")
    else
      var kind :- Field(ls[0], "  -kind: ");
      var name :- Field(ls[1], "    name: ");
      var network :- Field(ls[2], "    network: ");
      var source :- Field(ls[3], "    source: ");
      var mapping :- Field(ls[4], "    mapping: ");
      Ok(DataSource(kind, name, network, source, mapping))
  }

  predicate SingleLineFields(d: DataSource<string>)
  {
    SingleLine(d.kind) && SingleLine(d.name) && SingleLine(d.network)
    && SingleLine(d.source) && SingleLine(d.mapping)
  }

  /** The entry's lines: `  -kind: ` then four lines indented by four spaces,
      in the order kind, name, network, source, mapping; the text ends with a
      line break. */
  lemma DatasourceLayout(kind: string, name: string, network: string, source: string, mapping: string)
    requires SingleLineFields(DataSource(kind, name, network, source, mapping))
    ensures var ls := Lines(AddDatasource(kind, name, network, source, mapping));
      ls == ["  -kind: " + kind, "    name: " + name, "    network: " + network,
             "    source: " + source, "    mapping: " + mapping, ""]
    ensures HasSuffix(AddDatasource(kind, name, network, source, mapping), "\n")
  {
    var t := DatasourceTemplate(DataSource(kind, name, network, source, mapping));
    assert forall i :: 0 <= i < |t| ==> '\n' !in t[i];
    SplitJoin(t, '\n');
    var text := AddDatasource(kind, name, network, source, mapping);
    JoinLast(t, "\n");
  }

  /** The text ends with the separator when the last part is empty. */
  lemma {:induction false} JoinLast(parts: seq<string>, sep: string)
    requires |parts| >= 2 && parts[|parts| - 1] == ""
    ensures HasSuffix(Join(parts, sep), sep)
  {
    if |parts| == 2 {
      assert Join(parts, sep) == parts[0] + sep + "";
    } else {
      JoinLast(parts[1..], sep);
      var j := Join(parts[1..], sep);
      assert (parts[0] + sep + j)[|parts[0] + sep + j| - |sep|..] == j[|j| - |sep|..];
    }
  }

  /** The text reads back as the five arguments, unchanged and in order. */
  lemma DatasourceRoundTrip(kind: string, name: string, network: string, source: string, mapping: string)
    requires SingleLineFields(DataSource(kind, name, network, source, mapping))
    ensures ParseDatasource(AddDatasource(kind, name, network, source, mapping))
      == Ok(DataSource(kind, name, network, source, mapping))
  {
    DatasourceLayout(kind, name, network, source, mapping);
    PrefixOfConcat("  -kind: ", kind);
    PrefixOfConcat("    name: ", name);
    PrefixOfConcat("    network: ", network);
    PrefixOfConcat("    source: ", source);
    PrefixOfConcat("    mapping: ", mapping);
  }

  // ---------------------------------------------------------------------------
  // addDatasource2: the entry as a map
  // ---------------------------------------------------------------------------

  const DatasourceKeys: set<string> := {"kind", "name", "network", "source", "mapping"}

  /** `addDatasource2(kind, name, network, source, mapping)`: an immutable map
      with exactly the five keys, each bound to its argument. */
  function AddDatasource2<V>(kind: V, name: V, network: V, source: V, mapping: V): (r: map<string, V>)
    ensures r.Keys == DatasourceKeys
    ensures |r| == 5
    ensures FromEntry(r) == Ok(DataSource(kind, name, network, source, mapping))
  {
    assert |DatasourceKeys| == 5;
    map["kind" := kind, "name" := name, "network" := network, "source" := source, "mapping" := mapping]
  }

  /** Reads the five fields of a data source map; a missing key is an error. */
  function FromEntry<V>(m: map<string, V>): (r: Result<DataSource<V>>)
    ensures r.Ok? <==> DatasourceKeys <= m.Keys
  {
    if "kind" !in m then Err("missing key kind")
    else if "name" !in m then Err("missing key name")
    else if "network" !in m then Err("missing key network")
    else if "source" !in m then Err("missing key source")
    else if "mapping" !in m then Err("missing key mapping")
    else Ok(DataSource(m["kind"], m["name"], m["network"], m["source"], m["mapping"]))
  }

  /** A map with exactly the five keys is the one built from its own fields. */
  lemma Datasource2Complete<V>(m: map<string, V>)
    requires m.Keys == DatasourceKeys
    ensures FromEntry(m).Ok?
    ensures var d := FromEntry(m).value;
      AddDatasource2(d.kind, d.name, d.network, d.source, d.mapping) == m
  {
  }

  /** The text entry and the map entry carry the same fields. */
  lemma DatasourceFormsAgree(kind: string, name: string, network: string, source: string, mapping: string)
    requires SingleLineFields(DataSource(kind, name, network, source, mapping))
    ensures ParseDatasource(AddDatasource(kind, name, network, source, mapping))
      == FromEntry(AddDatasource2(kind, name, network, source, mapping))
  {
    DatasourceRoundTrip(kind, name, network, source, mapping);
  }

  // ---------------------------------------------------------------------------
  // addABIs: the ABI file map
  // ---------------------------------------------------------------------------

  /** `addABIs(contractName, abi)`: one entry, keyed by the ABI's file name.
      The pretty-printed JSON of the ABI is given as `formatted`. */
  function AddAbis<V>(contractName: string, formatted: V): (r: map<string, V>)
    ensures r.Keys == {contractName + ".json"}
    ensures r[contractName + ".json"] == formatted
  {
    map[contractName + ".json" := formatted]
  }

  /** The one key of the ABI map, placed under `./abis/`, is the file the
      mapping fragment of the same contract names for its ABI. */
  lemma AbiFileNamedInMapping<V>(events: seq<AbiEvent>, contractName: string, formatted: V)
    requires SingleLine(contractName) && SingleLineEvents(events)
    requires Mapping(events, contractName).Ok?
    ensures var m := ParseMapping(Mapping(events, contractName).value);
      m.Ok? && |m.value.abis| == 1 && m.value.abis[0].name == contractName
      && exists k :: k in AddAbis(contractName, formatted) && m.value.abis[0].file == "./abis/" + k
  {
    MappingRoundTrip(events, contractName);
    var k := contractName + ".json";
    assert k in AddAbis(contractName, formatted);
    assert "./abis/" + contractName + ".json" == "./abis/" + k;
  }

  // ---------------------------------------------------------------------------
  // writeScaffoldDirectory: the write plan
  // ---------------------------------------------------------------------------

  /** A value of the scaffold object: file contents, `null`, or a nested
      object whose own keys are walked in order. Any other value is walked as
      an object; a number or a boolean has no own keys, so it is `Dir([])`. */
  datatype Node = File(content: string) | Null | Dir(entries: seq<Entry>)

  /** One own key of a scaffold object and its value. */
  datatype Entry = Entry(name: string, node: Node)

  /** A file-system operation: `fs.mkdirs(path)` or `fs.writeFile(path, content)`. */
  datatype Op = MkDir(path: string) | Write(path: string, content: string)

  /** `path.join(directory, basename)`: the directory, a separator, then the
      basename, which can be read back from the joined path. */
  function PathJoin(dir: string, name: string): (r: string)
    ensures HasPrefix(r, dir + "/")
    ensures |r| == |dir| + 1 + |name| && r[|dir| + 1..] == name
  {
    PrefixOfConcat(dir + "/", name);
    dir + "/" + name
  }

  /** `writeScaffoldDirectory(scaffold, directory)`: the directory is created
      first, then the entries are handled in key order. */
  function Plan(entries: seq<Entry>, dir: string): (r: seq<Op>)
    ensures |r| >= 1 && r[0] == MkDir(dir)
    ensures forall i :: 1 <= i < |r| ==> HasPrefix(r[i].path, dir + "/")
  {
    [MkDir(dir)] + EntriesPlan(entries, dir)
  }

  /** The operations for the entries of one object: a string is written to
      `dir/name`, `null` is skipped, anything else is written as the
      directory `dir/name`. Every operation lies strictly below `dir`. */
  function EntriesPlan(entries: seq<Entry>, dir: string): (r: seq<Op>)
    ensures forall i :: 0 <= i < |r| ==> HasPrefix(r[i].path, dir + "/")
    decreases entries
  {
    if |entries| == 0 then []
    else
      var e := entries[0];
      var path := PathJoin(dir, e.name);
      var first := match e.node
        case File(s) => [Write(path, s)]
        case Null => []
        case Dir(sub) =>
          (var r := [MkDir(path)] + EntriesPlan(sub, path);
           PrefixUnder(r, dir, e.name);
           r);
      first + EntriesPlan(entries[1..], dir)
  }

  /** Operations at or below `dir/name` are below `dir`. */
  lemma PrefixUnder(ops: seq<Op>, dir: string, name: string)
    requires |ops| >= 1 && ops[0].path == PathJoin(dir, name)
    requires forall i :: 1 <= i < |ops| ==> HasPrefix(ops[i].path, PathJoin(dir, name) + "/")
    ensures forall i :: 0 <= i < |ops| ==> HasPrefix(ops[i].path, dir + "/")
  {
    forall i | 1 <= i < |ops|
      ensures HasPrefix(ops[i].path, dir + "/")
    {
      PrefixTrans(ops[i].path, PathJoin(dir, name) + "/", dir + "/");
    }
  }

  lemma PrefixTrans(s: string, p: string, q: string)
    requires HasPrefix(s, p) && HasPrefix(p, q)
    ensures HasPrefix(s, q)
  {
    assert s[..|q|] == s[..|p|][..|q|];
  }

  // ---------------------------------------------------------------------------
  // What the plan does
  // ---------------------------------------------------------------------------

  /** `content` is a string value of the scaffold at `path` below `dir`: some
      entry holds it directly at `dir/name`, or a nested object holds it below
      `dir/name`. */
  ghost predicate FileAt(entries: seq<Entry>, dir: string, path: string, content: string)
    decreases entries
  {
    exists i :: 0 <= i < |entries| &&
      match entries[i].node
        case File(s) => path == PathJoin(dir, entries[i].name) && s == content
        case Null => false
        case Dir(sub) => FileAt(sub, PathJoin(dir, entries[i].name), path, content)
  }

  /** `path` below `dir` names an object of the scaffold (other than `null`
      and strings). */
  ghost predicate DirAt(entries: seq<Entry>, dir: string, path: string)
    decreases entries
  {
    exists i :: 0 <= i < |entries| &&
      match entries[i].node
        case Dir(sub) =>
          path == PathJoin(dir, entries[i].name) || DirAt(sub, PathJoin(dir, entries[i].name), path)
        case _ => false
  }

  /** A file is written exactly where the scaffold holds a string, with that
      string as its content. */
  lemma {:induction false} WritesAreFiles(entries: seq<Entry>, dir: string, path: string, content: string)
    ensures Write(path, content) in EntriesPlan(entries, dir) <==> FileAt(entries, dir, path, content)
    decreases entries
  {
    if |entries| > 0 {
      var e := entries[0];
      var rest := entries[1..];
      WritesAreFiles(rest, dir, path, content);
      if e.node.Dir? {
        WritesAreFiles(e.node.entries, PathJoin(dir, e.name), path, content);
      }
      if FileAt(entries, dir, path, content) {
        var i :| 0 <= i < |entries| &&
          match entries[i].node
            case File(s) => path == PathJoin(dir, entries[i].name) && s == content
            case Null => false
            case Dir(sub) => FileAt(sub, PathJoin(dir, entries[i].name), path, content);
        if i > 0 {
          assert rest[i - 1] == entries[i];
        }
      }
      if FileAt(rest, dir, path, content) {
        var i :| 0 <= i < |rest| &&
          match rest[i].node
            case File(s) => path == PathJoin(dir, rest[i].name) && s == content
            case Null => false
            case Dir(sub) => FileAt(sub, PathJoin(dir, rest[i].name), path, content);
        assert entries[i + 1] == rest[i];
      }
    }
  }

  /** The whole walk: `dir` itself is created, every other directory created
      is an object of the scaffold, and every file written is a string of the
      scaffold at its key path. */
  lemma PlanOps(entries: seq<Entry>, dir: string, path: string, content: string)
    ensures MkDir(path) in Plan(entries, dir) <==> path == dir || DirAt(entries, dir, path)
    ensures Write(path, content) in Plan(entries, dir) <==> FileAt(entries, dir, path, content)
  {
    WritesAreFiles(entries, dir, path, content);
    DirsAreObjects(entries, dir, path);
  }

  /** A directory is created exactly where the scaffold holds an object. */
  lemma {:induction false} DirsAreObjects(entries: seq<Entry>, dir: string, path: string)
    ensures MkDir(path) in EntriesPlan(entries, dir) <==> DirAt(entries, dir, path)
    decreases entries
  {
    if |entries| > 0 {
      var e := entries[0];
      var rest := entries[1..];
      DirsAreObjects(rest, dir, path);
      if e.node.Dir? {
        DirsAreObjects(e.node.entries, PathJoin(dir, e.name), path);
      }
      if DirAt(entries, dir, path) {
        var i :| 0 <= i < |entries| &&
          match entries[i].node
            case Dir(sub) =>
              path == PathJoin(dir, entries[i].name) || DirAt(sub, PathJoin(dir, entries[i].name), path)
            case _ => false;
        if i > 0 {
          assert rest[i - 1] == entries[i];
        }
      }
      if DirAt(rest, dir, path) {
        var i :| 0 <= i < |rest| &&
          match rest[i].node
            case Dir(sub) =>
              path == PathJoin(dir, rest[i].name) || DirAt(sub, PathJoin(dir, rest[i].name), path)
            case _ => false;
        assert entries[i + 1] == rest[i];
      }
    }
  }

  /** `sub` is the entry list of an object of the scaffold at `path` below `dir`. */
  ghost predicate ObjectAt(entries: seq<Entry>, dir: string, path: string, sub: seq<Entry>)
    decreases entries
  {
    exists i :: 0 <= i < |entries| &&
      match entries[i].node
        case Dir(inner) =>
          (path == PathJoin(dir, entries[i].name) && inner == sub)
          || ObjectAt(inner, PathJoin(dir, entries[i].name), path, sub)
        case _ => false
  }

  /** `inner` occurs in `ops` as a run of consecutive operations. */
  ghost predicate Contiguous(inner: seq<Op>, ops: seq<Op>)
  {
    exists i :: RunAt(inner, ops, i)
  }

  /** The operations of `ops` from position `i` on begin with `inner`. */
  ghost predicate RunAt(inner: seq<Op>, ops: seq<Op>, i: int)
  {
    0 <= i <= |ops| - |inner| && ops[i..i + |inner|] == inner
  }

  /** In the depth-first ordering, the operations for a nested object form one
      uninterrupted run: its `mkdirs`, then the operations for its own entries.
      So every nested directory is created before anything below it in the
      tree, however the keys are named. */
  lemma {:induction false} NestedPlanContiguous(entries: seq<Entry>, dir: string, path: string, sub: seq<Entry>)
    requires ObjectAt(entries, dir, path, sub)
    ensures Contiguous(Plan(sub, path), Plan(entries, dir))
    decreases entries
  {
    NestedEntriesContiguous(entries, dir, path, sub);
    ContiguousAfter(Plan(sub, path), [MkDir(dir)], EntriesPlan(entries, dir));
  }

  lemma {:induction false} NestedEntriesContiguous(entries: seq<Entry>, dir: string, path: string, sub: seq<Entry>)
    requires ObjectAt(entries, dir, path, sub)
    ensures Contiguous(Plan(sub, path), EntriesPlan(entries, dir))
    decreases entries
  {
    var e, rest := entries[0], entries[1..];
    var k :| 0 <= k < |entries| &&
      match entries[k].node
        case Dir(inner) =>
          (path == PathJoin(dir, entries[k].name) && inner == sub)
          || ObjectAt(inner, PathJoin(dir, entries[k].name), path, sub)
        case _ => false;
    var later := EntriesPlan(rest, dir);
    if k == 0 {
      var p := PathJoin(dir, e.name);
      var inner := e.node.entries;
      var first := [MkDir(p)] + EntriesPlan(inner, p);
      assert EntriesPlan(entries, dir) == first + later;
      if path == p && inner == sub {
        assert RunAt(first, first, 0);
      } else {
        NestedEntriesContiguous(inner, p, path, sub);
        ContiguousAfter(Plan(sub, path), [MkDir(p)], EntriesPlan(inner, p));
      }
      ContiguousBefore(Plan(sub, path), first, later);
    } else {
      assert rest[k - 1] == entries[k];
      NestedEntriesContiguous(rest, dir, path, sub);
      var first := EntriesPlan(entries, dir)[..|EntriesPlan(entries, dir)| - |later|];
      assert EntriesPlan(entries, dir) == first + later;
      ContiguousAfter(Plan(sub, path), first, later);
    }
  }

  lemma ContiguousBefore(inner: seq<Op>, a: seq<Op>, b: seq<Op>)
    requires Contiguous(inner, a)
    ensures Contiguous(inner, a + b)
  {
    var i :| RunAt(inner, a, i);
    assert (a + b)[i..i + |inner|] == inner;
    assert RunAt(inner, a + b, i);
  }

  lemma ContiguousAfter(inner: seq<Op>, a: seq<Op>, b: seq<Op>)
    requires Contiguous(inner, b)
    ensures Contiguous(inner, a + b)
  {
    var i :| RunAt(inner, b, i);
    assert (a + b)[|a| + i..|a| + i + |inner|] == inner;
    assert RunAt(inner, a + b, |a| + i);
  }

  /** The plan of two runs of entries is the plan of the first, then that of the second. */
  lemma {:induction false} EntriesPlanConcat(a: seq<Entry>, b: seq<Entry>, dir: string)
    ensures EntriesPlan(a + b, dir) == EntriesPlan(a, dir) + EntriesPlan(b, dir)
  {
    if |a| > 0 {
      assert (a + b)[0] == a[0];
      assert (a + b)[1..] == a[1..] + b;
      EntriesPlanConcat(a[1..], b, dir);
    } else {
      assert a + b == b;
    }
  }

  /** A `null` value contributes nothing: the plan is the same without it. */
  lemma NullSkipped(entries: seq<Entry>, i: nat, dir: string)
    requires i < |entries| && entries[i].node == Null
    ensures EntriesPlan(entries[..i] + entries[i + 1..], dir) == EntriesPlan(entries, dir)
  {
    var pre, post := entries[..i], entries[i + 1..];
    var skipped := [entries[i]] + post;
    assert entries == pre + skipped;
    assert skipped[1..] == post;
    EntriesPlanConcat(pre, skipped, dir);
    EntriesPlanConcat(pre, post, dir);
  }

  /** The string values of a scaffold, counted through every nested object. */
  function FileCount(entries: seq<Entry>): nat
    decreases entries
  {
    if |entries| == 0 then 0
    else
      (match entries[0].node
        case File(_) => 1
        case Null => 0
        case Dir(sub) => FileCount(sub))
      + FileCount(entries[1..])
  }

  /** The number of writes among some operations. */
  function WriteCount(ops: seq<Op>): nat
  {
    if |ops| == 0 then 0 else (if ops[0].Write? then 1 else 0) + WriteCount(ops[1..])
  }

  lemma {:induction false} WriteCountConcat(a: seq<Op>, b: seq<Op>)
    ensures WriteCount(a + b) == WriteCount(a) + WriteCount(b)
  {
    if |a| > 0 {
      assert (a + b)[1..] == a[1..] + b;
      WriteCountConcat(a[1..], b);
    } else {
      assert a + b == b;
    }
  }

  /** One write per string value, and no other. */
  lemma OneWritePerFile(entries: seq<Entry>, dir: string)
    ensures WriteCount(Plan(entries, dir)) == FileCount(entries)
  {
    EntriesWrites(entries, dir);
  }

  lemma {:induction false} EntriesWrites(entries: seq<Entry>, dir: string)
    ensures WriteCount(EntriesPlan(entries, dir)) == FileCount(entries)
  {
    if |entries| > 0 {
      var e := entries[0];
      var path := PathJoin(dir, e.name);
      EntriesWrites(entries[1..], dir);
      match e.node {
        case File(s) =>
          WriteCountConcat([Write(path, s)], EntriesPlan(entries[1..], dir));
        case Null =>
          WriteCountConcat([], EntriesPlan(entries[1..], dir));
        case Dir(sub) =>
          var first := [MkDir(path)] + EntriesPlan(sub, path);
          EntriesWrites(sub, path);
          WriteCountConcat([MkDir(path)], EntriesPlan(sub, path));
          WriteCountConcat(first, EntriesPlan(entries[1..], dir));
      }
    }
  }
}
