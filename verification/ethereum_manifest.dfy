/** The Ethereum protocol's manifest templates: the `source` and `mapping`
    fragments of a new data source, rendered from the contract address, the
    contract name and the contract's events. Which events an ABI declares
    (`abiEvents`) and how an event's signature is written
    (`ABI.eventSignature`) are defined elsewhere; here each event arrives
    already carrying its alias and its signature. */
module EthereumManifest {
  import opened Results
  import opened Text
  import opened KebabCase

  /** The fixed values of the mapping header. */
  const Kind := "ethereum/events"
  const ApiVersion := "0.0.5"
  const Language := "wasm/assemblyscript"

  /** One element of `abiEvents(abi)`: its `_alias` and its `eventSignature`. */
  datatype AbiEvent = AbiEvent(alias: string, signature: string)

  // ---------------------------------------------------------------------------
  // Rendering, as the templates write it
  // ---------------------------------------------------------------------------

  /** `source({ contract, contractName })`. A template literal spanning
      several lines is its lines joined with line breaks; this one starts with
      a line break. */
  function Source(contract: string, contractName: string): (r: string)
    ensures r == "\n" + ("      address: '" + contract + "'") + "\n" + ("      abi: " + contractName)
  {
    var t := ["", "      address: '" + contract + "'", "      abi: " + contractName];
    assert t[..2] == t[..1] + [t[1]];
    assert t == t[..2] + [t[2]];
    JoinSnoc(t[..1], t[1], "\n");
    JoinSnoc(t[..2], t[2], "\n");
    assert "" + "\n" == "\n";
    Join(["", "      address: '" + contract + "'", "      abi: " + contractName], "\n")
  }

  function EntityItems(events: seq<AbiEvent>): (r: seq<string>)
    ensures |r| == |events|
  {
    seq(|events|, i requires 0 <= i < |events| => "- " + events[i].alias)
  }

  function HandlerItems(events: seq<AbiEvent>): (r: seq<string>)
    ensures |r| == |events|
  {
    seq(|events|, i requires 0 <= i < |events| => HandlerItem(events[i]))
  }

  /** The text one event adds to the handler list; it starts with a line break. */
  function HandlerItem(e: AbiEvent): string
  {
    Join(["", "        - event: " + e.signature, "          handler: handle" + e.alias], "\n")
  }

  /** `mapping({ abi, contractName })`; it throws, like `toKebabCase`, when the
      contract name has no ASCII letter or digit. */
  function Mapping(events: seq<AbiEvent>, contractName: string): (r: Result<string>)
    ensures r.Err? <==> forall i :: 0 <= i < |contractName| ==> !IsAlnum(contractName[i])
  {
    var kebab :- ToKebabCase(contractName);
    Ok(MappingText(events, contractName, kebab))
  }

  /** The template itself, once `toKebabCase` has produced the file name: a
      line break, the fixed header, the entity list, the one ABI, the handler
      list and the handler file, each on its own line. */
  function MappingText(events: seq<AbiEvent>, contractName: string, kebab: string): (r: string)
    ensures r == "\n" + ("      kind: " + Kind) + "\n" + ("      apiVersion: " + ApiVersion)
      + "\n" + ("      language: " + Language) + "\n" + "      entities:"
      + "\n" + ("        " + Join(EntityItems(events), "\n        "))
      + "\n" + "      abis:" + "\n" + ("        - name: " + contractName)
      + "\n" + ("          file: ./abis/" + contractName + ".json") + "\n" + "      eventHandlers:"
      + "\n" + ("        " + Join(HandlerItems(events), ""))
      + "\n" + ("      file: ./src/" + kebab + ".ts")
  {
    var t := MappingTemplate(events, contractName, kebab);
    JoinTemplate(t);
    assert "" + "\n" == "\n";
    Join(t, "\n")
  }

  /** The join of the twelve template lines, one separator at a time. */
  lemma JoinTemplate(t: seq<string>)
    requires |t| == 12
    ensures Join(t, "\n") == t[0] + "\n" + t[1] + "\n" + t[2] + "\n" + t[3] + "\n" + t[4] + "\n" + t[5]
      + "\n" + t[6] + "\n" + t[7] + "\n" + t[8] + "\n" + t[9] + "\n" + t[10] + "\n" + t[11]
  {
    assert t[..2] == t[..1] + [t[1]];
    assert t[..3] == t[..2] + [t[2]];
    assert t[..4] == t[..3] + [t[3]];
    assert t[..5] == t[..4] + [t[4]];
    assert t[..6] == t[..5] + [t[5]];
    assert t[..7] == t[..6] + [t[6]];
    assert t[..8] == t[..7] + [t[7]];
    assert t[..9] == t[..8] + [t[8]];
    assert t[..10] == t[..9] + [t[9]];
    assert t[..11] == t[..10] + [t[10]];
    assert t == t[..11] + [t[11]];
    JoinSnoc(t[..1], t[1], "\n");
    JoinSnoc(t[..2], t[2], "\n");
    JoinSnoc(t[..3], t[3], "\n");
    JoinSnoc(t[..4], t[4], "\n");
    JoinSnoc(t[..5], t[5], "\n");
    JoinSnoc(t[..6], t[6], "\n");
    JoinSnoc(t[..7], t[7], "\n");
    JoinSnoc(t[..8], t[8], "\n");
    JoinSnoc(t[..9], t[9], "\n");
    JoinSnoc(t[..10], t[10], "\n");
    JoinSnoc(t[..11], t[11], "\n");
  }

  /** The template's source lines; the entity list and the handler list are
      interpolated on the lines that start them. */
  function MappingTemplate(events: seq<AbiEvent>, contractName: string, kebab: string): seq<string>
  {
    ["",
     "      kind: " + Kind,
     "      apiVersion: " + ApiVersion,
     "      language: " + Language,
     "      entities:",
     "        " + Join(EntityItems(events), "\n        "),
     "      abis:",
     "        - name: " + contractName,
     "          file: ./abis/" + contractName + ".json",
     "      eventHandlers:",
     "        " + Join(HandlerItems(events), ""),
     "      file: ./src/" + kebab + ".ts"]
  }

  // ---------------------------------------------------------------------------
  // Structured reading of the fragments
  // ---------------------------------------------------------------------------

  datatype SourceRecord = SourceRecord(address: string, abi: string)

  datatype AbiRef = AbiRef(name: string, file: string)

  datatype EventHandler = EventHandler(event: string, handler: string)

  datatype MappingRecord = MappingRecord(
    kind: string,
    apiVersion: string,
    language: string,
    entities: seq<string>,
    abis: seq<AbiRef>,
    eventHandlers: seq<EventHandler>,
    file: string)

  /** The value of a `<prefix><value>` line. */
  function Field(line: string, prefix: string): (r: Result<string>)
    ensures r.Ok? <==> HasPrefix(line, prefix)
    ensures r.Ok? ==> line == prefix + r.value
  {
    if HasPrefix(line, prefix) then Ok(line[|prefix|..])
    else Err("expected a line starting with '" + prefix + "'")
  }

  /** Reads a source fragment back into its address and ABI name. */
  function ParseSource(text: string): Result<SourceRecord>
  {
    var ls := Lines(text);
    if |ls| != 3 || ls[0] != "" then Err("a source fragment has three lines")
    else
      var quoted :- Field(ls[1], "      address: ");
      var abi :- Field(ls[2], "      abi: ");
      if |quoted| < 2 || quoted[0] != '\'' || quoted[|quoted| - 1] != '\'' then
        Err("the address is single-quoted")
      else Ok(SourceRecord(quoted[1..|quoted| - 1], abi))
  }

  /** Reads the `- <alias>` lines of the entity list, returning the aliases and
      the lines that follow the list. */
  function ParseEntities(ls: seq<string>): (r: (seq<string>, seq<string>))
    ensures |r.1| <= |ls|
  {
    if |ls| > 0 && HasPrefix(ls[0], "        - ") then
      var (aliases, rest) := ParseEntities(ls[1..]);
      ([ls[0][10..]] + aliases, rest)
    else ([], ls)
  }

  /** Reads the `- event:` / `handler:` line pairs of the handler list. */
  function ParseHandlers(ls: seq<string>): (r: (seq<EventHandler>, seq<string>))
    ensures |r.1| <= |ls|
  {
    if |ls| >= 2 && HasPrefix(ls[0], "        - event: ") && HasPrefix(ls[1], "          handler: ") then
      var (handlers, rest) := ParseHandlers(ls[2..]);
      ([EventHandler(ls[0][17..], ls[1][19..])] + handlers, rest)
    else ([], ls)
  }

  datatype MappingTail = MappingTail(abis: seq<AbiRef>, eventHandlers: seq<EventHandler>, file: string)

  /** Reads the lines from `abis:` to the end: one ABI, the handler list, and
      the handler file. */
  function ParseTail(ls: seq<string>): Result<MappingTail>
  {
    if |ls| < 5 || ls[0] != "      abis:" then Err("missing abis")
    else
      var name :- Field(ls[1], "        - name: ");
      var file :- Field(ls[2], "          file: ");
      if ls[3] != "      eventHandlers:" || ls[4] != "        " then Err("missing eventHandlers")
      else
        var (handlers, afterHandlers) := ParseHandlers(ls[5..]);
        if |afterHandlers| != 1 then Err("expected the mapping file last")
        else
          var mappingFile :- Field(afterHandlers[0], "      file: ");
          Ok(MappingTail([AbiRef(name, file)], handlers, mappingFile))
  }

  /** Reads a mapping fragment back into its fields. An empty entity list
      leaves one blank indented line; the handler list always starts after one. */
  function ParseMapping(text: string): Result<MappingRecord>
  {
    var ls := Lines(text);
    if |ls| < 5 || ls[0] != "" then Err("missing mapping header")
    else
      var kind :- Field(ls[1], "      kind: ");
      var apiVersion :- Field(ls[2], "      apiVersion: ");
      var language :- Field(ls[3], "      language: ");
      if ls[4] != "      entities:" then Err("missing entities")
      else
        var body :- ParseBody(ls[5..]);
        var (entities, tail) := body;
        Ok(MappingRecord(kind, apiVersion, language, entities, tail.abis, tail.eventHandlers, tail.file))
  }

  /** Reads the entity list and the lines after it. */
  function ParseBody(ls: seq<string>): Result<(seq<string>, MappingTail)>
  {
    var (entities, afterEntities) := ParseEntities(ls);
    var tailAt := if |entities| == 0 && |afterEntities| > 0 && afterEntities[0] == "        "
      then afterEntities[1..] else afterEntities;
    var tail :- ParseTail(tailAt);
    Ok((entities, tail))
  }

  // ---------------------------------------------------------------------------
  // What the fragments say
  // ---------------------------------------------------------------------------

  predicate SingleLine(s: string)
  {
    '\n' !in s
  }

  predicate SingleLineEvents(events: seq<AbiEvent>)
  {
    forall i :: 0 <= i < |events| ==> SingleLine(events[i].alias) && SingleLine(events[i].signature)
  }

  function Aliases(events: seq<AbiEvent>): (r: seq<string>)
    ensures |r| == |events|
  {
    seq(|events|, i requires 0 <= i < |events| => events[i].alias)
  }

  /** One handler per event: its signature, and `handle` followed by its alias. */
  function Handlers(events: seq<AbiEvent>): (r: seq<EventHandler>)
    ensures |r| == |events|
  {
    seq(|events|, i requires 0 <= i < |events| => EventHandler(events[i].signature, "handle" + events[i].alias))
  }

  lemma SourceLines(contract: string, contractName: string)
    requires SingleLine(contract) && SingleLine(contractName)
    ensures Lines(Source(contract, contractName))
      == ["", "      address: '" + contract + "'", "      abi: " + contractName]
  {
    SplitJoin(["", "      address: '" + contract + "'", "      abi: " + contractName], '\n');
  }

  /** The source fragment holds the contract address, single-quoted after
      `address:`, and exactly the contract name after `abi:`. */
  lemma SourceRoundTrip(contract: string, contractName: string)
    requires SingleLine(contract) && SingleLine(contractName)
    ensures ParseSource(Source(contract, contractName)) == Ok(SourceRecord(contract, contractName))
  {
    SourceLines(contract, contractName);
    var quoted := "'" + contract + "'";
    assert "      address: '" + contract + "'" == "      address: " + quoted;
    PrefixOfConcat("      address: ", quoted);
    PrefixOfConcat("      abi: ", contractName);
    assert quoted[1..|quoted| - 1] == contract;
  }

  // ---------------------------------------------------------------------------
  // The mapping fragment, line by line
  // ---------------------------------------------------------------------------

  /** The `- <alias>` lines, one per event, in event order. */
  function EntryLines(events: seq<AbiEvent>): (r: seq<string>)
    ensures |r| == |events|
    ensures forall i :: 0 <= i < |events| ==> r[i] == "        - " + events[i].alias
  {
    var items := EntityItems(events);
    seq(|events|, i requires 0 <= i < |events| =>
      ConcatAssoc("        ", "- ", events[i].alias); "        " + items[i])
  }

  /** The lines under `entities:`; with no events a blank indented line remains. */
  function EntityLines(events: seq<AbiEvent>): seq<string>
  {
    if |events| == 0 then ["        "] else EntryLines(events)
  }

  /** Two lines per event, in event order: its signature, then its handler. */
  function HandlerLines(events: seq<AbiEvent>): (r: seq<string>)
    ensures |r| == 2 * |events|
  {
    if |events| == 0 then []
    else
      ["        - event: " + events[0].signature, "          handler: handle" + events[0].alias]
      + HandlerLines(events[1..])
  }

  function MappingLines(events: seq<AbiEvent>, contractName: string, kebab: string): seq<string>
  {
    ["", "      kind: " + Kind, "      apiVersion: " + ApiVersion,
     "      language: " + Language, "      entities:"]
    + EntityLines(events)
    + TailLines(events, contractName, kebab)
  }

  /** The lines from `abis:` to the end. */
  function TailLines(events: seq<AbiEvent>, contractName: string, kebab: string): seq<string>
  {
    ["      abis:", "        - name: " + contractName,
     "          file: ./abis/" + contractName + ".json",
     "      eventHandlers:", "        "]
    + HandlerLines(events)
    + ["      file: ./src/" + kebab + ".ts"]
  }

  lemma {:induction false} EntityBlockLines(events: seq<AbiEvent>)
    requires SingleLineEvents(events)
    ensures Lines("        " + Join(EntityItems(events), "\n        ")) == EntityLines(events)
  {
    var items := EntityItems(events);
    if |events| == 0 {
      assert "        " + Join(items, "\n        ") == "        ";
      SplitNoSep("        ", '\n');
    } else if |events| == 1 {
      SplitNoSep("        " + items[0], '\n');
      assert "        " + items[0] == EntryLines(events)[0];
    } else {
      var first := "        " + items[0];
      var rest := "        " + Join(items[1..], "\n        ");
      assert "        " + Join(items, "\n        ") == first + "\n" + rest;
      LinesCons(first, rest);
      assert items[1..] == EntityItems(events[1..]);
      EntityBlockLines(events[1..]);
      assert "        " + items[0] == EntryLines(events)[0];
      assert EntryLines(events) == [first] + EntryLines(events[1..]);
    }
  }

  lemma HandlerItemLines(e: AbiEvent)
    requires SingleLine(e.alias) && SingleLine(e.signature)
    ensures Lines(HandlerItem(e))
      == ["", "        - event: " + e.signature, "          handler: handle" + e.alias]
  {
    SplitJoin(["", "        - event: " + e.signature, "          handler: handle" + e.alias], '\n');
  }

  lemma {:induction false} HandlerBlockLines(events: seq<AbiEvent>)
    requires SingleLineEvents(events)
    ensures Lines(Join(HandlerItems(events), "")) == [""] + HandlerLines(events)
  {
    if |events| > 0 {
      HandlerBlockLines(events[1..]);
      HandlerBlockStep(events);
    }
  }

  lemma HandlerBlockStep(events: seq<AbiEvent>)
    requires |events| > 0 && SingleLineEvents(events)
    requires Lines(Join(HandlerItems(events[1..]), "")) == [""] + HandlerLines(events[1..])
    ensures Lines(Join(HandlerItems(events), "")) == [""] + HandlerLines(events)
  {
    var items := HandlerItems(events);
    var e := "        - event: " + events[0].signature;
    var h := "          handler: handle" + events[0].alias;
    JoinNoSep(items);
    assert items[1..] == HandlerItems(events[1..]);
    HandlerItemLines(events[0]);
    LinesAfterItem(items[0], Join(items[1..], ""), e, h, HandlerLines(events[1..]));
  }

  lemma LinesAfterItem(item: string, later: string, e: string, h: string, rest: seq<string>)
    requires Lines(item) == ["", e, h] && Lines(later) == [""] + rest
    ensures Lines(item + later) == ["", e, h] + rest
  {
    SplitAppend(item, later, '\n');
    assert Glue(["", e, h], [""] + rest) == ["", e, h + ""] + rest;
    assert h + "" == h;
  }

  /** The line that starts the handler list, and the lines it brings. */
  lemma HandlerPieceLines(events: seq<AbiEvent>)
    requires SingleLineEvents(events)
    ensures Lines("        " + Join(HandlerItems(events), "")) == ["        "] + HandlerLines(events)
  {
    HandlerBlockLines(events);
    SplitAppend("        ", Join(HandlerItems(events), ""), '\n');
    SplitNoSep("        ", '\n');
    assert "        " + "" == "        ";
    assert Glue(["        "], [""] + HandlerLines(events)) == ["        "] + HandlerLines(events);
  }

  lemma SplitEachOne(x: string)
    ensures SplitEach([x], '\n') == Lines(x)
  {
    assert [x][1..] == [];
  }

  /** The lines of a twelve-line template whose only multi-line
      interpolations sit on lines 5 and 10. */
  lemma TemplateLines(t: seq<string>)
    requires |t| == 12
    requires forall i :: 0 <= i < 12 && i != 5 && i != 10 ==> SingleLine(t[i])
    ensures Lines(Join(t, "\n")) == t[..5] + Lines(t[5]) + t[6..10] + Lines(t[10]) + t[11..]
  {
    var head, middle, last := t[..5], t[6..10], t[11..];
    assert t == head + [t[5]] + middle + [t[10]] + last;
    SplitJoinEach(t, '\n');
    SplitEachConcat(head + [t[5]] + middle + [t[10]], last, '\n');
    SplitEachConcat(head + [t[5]] + middle, [t[10]], '\n');
    SplitEachConcat(head + [t[5]], middle, '\n');
    SplitEachConcat(head, [t[5]], '\n');
    SplitEachSingle(head, '\n');
    SplitEachSingle(middle, '\n');
    SplitEachSingle(last, '\n');
    SplitEachOne(t[5]);
    SplitEachOne(t[10]);
  }

  /** The mapping template, read line by line: the fixed header, one entity
      line per event, the single ABI, one signature and handler line pair per
      event, and the handler file last. */
  lemma MappingTextLayout(events: seq<AbiEvent>, contractName: string, kebab: string)
    requires SingleLine(contractName) && SingleLineEvents(events) && SingleLine(kebab)
    ensures Lines(MappingText(events, contractName, kebab)) == MappingLines(events, contractName, kebab)
  {
    var t := MappingTemplate(events, contractName, kebab);
    TemplateSingleLines(events, contractName, kebab);
    TemplateLines(t);
    TemplateHead(events, contractName, kebab);
    TemplateTail(events, contractName, kebab);
  }

  lemma TemplateHead(events: seq<AbiEvent>, contractName: string, kebab: string)
    requires SingleLineEvents(events)
    ensures var t := MappingTemplate(events, contractName, kebab);
      t[..5] == ["", "      kind: " + Kind, "      apiVersion: " + ApiVersion,
                 "      language: " + Language, "      entities:"]
      && Lines(t[5]) == EntityLines(events)
  {
    EntityBlockLines(events);
  }

  lemma TemplateTail(events: seq<AbiEvent>, contractName: string, kebab: string)
    requires SingleLineEvents(events)
    ensures var t := MappingTemplate(events, contractName, kebab);
      t[6..10] + Lines(t[10]) + t[11..] == TailLines(events, contractName, kebab)
  {
    HandlerPieceLines(events);
  }

  lemma TemplateSingleLines(events: seq<AbiEvent>, contractName: string, kebab: string)
    requires SingleLine(contractName) && SingleLine(kebab)
    ensures var t := MappingTemplate(events, contractName, kebab);
      forall i :: 0 <= i < 12 && i != 5 && i != 10 ==> SingleLine(t[i])
  {
  }

  lemma {:induction false} ParseEntriesOf(events: seq<AbiEvent>, rest: seq<string>)
    requires |rest| > 0 ==> !HasPrefix(rest[0], "        - ")
    ensures ParseEntities(EntryLines(events) + rest) == (Aliases(events), rest)
  {
    if |events| > 0 {
      var ls := EntryLines(events) + rest;
      PrefixOfConcat("        - ", events[0].alias);
      assert ls[0] == "        - " + events[0].alias;
      assert ls[1..] == EntryLines(events[1..]) + rest;
      ParseEntriesOf(events[1..], rest);
      assert Aliases(events) == [events[0].alias] + Aliases(events[1..]);
    } else {
      assert EntryLines(events) + rest == rest;
    }
  }

  lemma {:induction false} ParseHandlersOf(events: seq<AbiEvent>, rest: seq<string>)
    requires |rest| < 2 || !HasPrefix(rest[0], "        - event: ")
    ensures ParseHandlers(HandlerLines(events) + rest) == (Handlers(events), rest)
  {
    if |events| > 0 {
      var ls := HandlerLines(events) + rest;
      PrefixOfConcat("        - event: ", events[0].signature);
      PrefixOfConcat("          handler: ", "handle" + events[0].alias);
      assert "          handler: handle" + events[0].alias == "          handler: " + ("handle" + events[0].alias);
      assert ls[2..] == HandlerLines(events[1..]) + rest;
      ParseHandlersOf(events[1..], rest);
      assert Handlers(events) == [EventHandler(events[0].signature, "handle" + events[0].alias)] + Handlers(events[1..]);
    } else {
      assert HandlerLines(events) + rest == rest;
    }
  }

  lemma TailRoundTrip(events: seq<AbiEvent>, contractName: string, kebab: string)
    ensures ParseTail(TailLines(events, contractName, kebab))
      == Ok(MappingTail([AbiRef(contractName, "./abis/" + contractName + ".json")], Handlers(events), "./src/" + kebab + ".ts"))
  {
    var ls := TailLines(events, contractName, kebab);
    var fileLine := "      file: ./src/" + kebab + ".ts";
    assert ls[5..] == HandlerLines(events) + [fileLine];
    ParseHandlersOf(events, [fileLine]);
    PrefixOfConcat("        - name: ", contractName);
    assert "          file: ./abis/" + contractName + ".json" == "          file: " + ("./abis/" + contractName + ".json");
    PrefixOfConcat("          file: ", "./abis/" + contractName + ".json");
    assert fileLine == "      file: " + ("./src/" + kebab + ".ts");
    PrefixOfConcat("      file: ", "./src/" + kebab + ".ts");
  }

  /** The entity list, blank line included, is read up to the `abis:` line. */
  lemma EntitiesRoundTrip(events: seq<AbiEvent>, tail: seq<string>)
    requires |tail| > 0 && tail[0] == "      abis:"
    ensures var (entities, after) := ParseEntities(EntityLines(events) + tail);
      entities == Aliases(events)
      && (if |entities| == 0 && |after| > 0 && after[0] == "        " then after[1..] else after) == tail
  {
    if |events| == 0 {
      assert (EntityLines(events) + tail)[1..] == tail;
    } else {
      assert !HasPrefix(tail[0], "        - ") by {
        assert tail[0][6] != "        - "[6];
      }
      ParseEntriesOf(events, tail);
    }
  }

  lemma FieldOf(prefix: string, value: string)
    ensures Field(prefix + value, prefix) == Ok(value)
  {
    PrefixOfConcat(prefix, value);
  }

  /** Any text with the layout of a mapping fragment reads back into its fields. */
  lemma ParseMappingLines(text: string, events: seq<AbiEvent>, contractName: string, kebab: string)
    requires Lines(text) == MappingLines(events, contractName, kebab)
    ensures ParseMapping(text)
      == Ok(MappingRecord(
           "ethereum/events", "0.0.5", "wasm/assemblyscript",
           Aliases(events),
           [AbiRef(contractName, "./abis/" + contractName + ".json")],
           Handlers(events),
           "./src/" + kebab + ".ts"))
  {
    var ls := Lines(text);
    assert ls[..5] == ["", "      kind: " + Kind, "      apiVersion: " + ApiVersion,
                       "      language: " + Language, "      entities:"];
    assert ls[5..] == EntityLines(events) + TailLines(events, contractName, kebab);
    FieldOf("      kind: ", Kind);
    FieldOf("      apiVersion: ", ApiVersion);
    FieldOf("      language: ", Language);
    BodyRoundTrip(events, contractName, kebab);
  }

  lemma BodyRoundTrip(events: seq<AbiEvent>, contractName: string, kebab: string)
    ensures ParseBody(EntityLines(events) + TailLines(events, contractName, kebab))
      == Ok((Aliases(events),
             MappingTail([AbiRef(contractName, "./abis/" + contractName + ".json")],
                         Handlers(events), "./src/" + kebab + ".ts")))
  {
    TailRoundTrip(events, contractName, kebab);
    EntitiesRoundTrip(events, TailLines(events, contractName, kebab));
  }

  /** The mapping fragment reads back as: kind `ethereum/events`, API version
      `0.0.5`, language `wasm/assemblyscript`; one entity per event, its alias,
      in event order; exactly one ABI, named after the contract and read from
      `./abis/<name>.json`; one handler per event, in event order, pairing its
      signature with `handle` and its alias; and the handler file
      `./src/<kebab-case name>.ts`. */
  lemma MappingRoundTrip(events: seq<AbiEvent>, contractName: string)
    requires SingleLine(contractName) && SingleLineEvents(events)
    requires Mapping(events, contractName).Ok?
    ensures ParseMapping(Mapping(events, contractName).value)
      == Ok(MappingRecord(
           "ethereum/events", "0.0.5", "wasm/assemblyscript",
           Aliases(events),
           [AbiRef(contractName, "./abis/" + contractName + ".json")],
           Handlers(events),
           "./src/" + ToKebabCase(contractName).value + ".ts"))
  {
    var kebab := ToKebabCase(contractName).value;
    KebabAlphabet(contractName);
    assert SingleLine(kebab) by {
      assert !IsKebabChar('\n');
    }
    MappingTextLayout(events, contractName, kebab);
    ParseMappingLines(Mapping(events, contractName).value, events, contractName, kebab);
  }

  /** Both lists are drawn from the same events: as many entities as handlers. */
  lemma EntitiesMatchHandlers(events: seq<AbiEvent>, contractName: string)
    requires SingleLine(contractName) && SingleLineEvents(events)
    requires Mapping(events, contractName).Ok?
    ensures var r := ParseMapping(Mapping(events, contractName).value);
      r.Ok? && |r.value.entities| == |r.value.eventHandlers| == |events|
      && |r.value.abis| == 1
  {
    MappingRoundTrip(events, contractName);
  }
}
