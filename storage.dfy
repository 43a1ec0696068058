// src/storage/storage.cpp: the document and checkpoint file formats. The writers
// are string encoders, the readers loops over the lines std::getline yields; the
// files themselves, and whether they open, are not modelled. The iteration order of
// an unordered_map being written is the parameter `order`.

module Storage {
  import opened Strings
  import opened Decimal

  /** Storage::get_document_path */
  function DocumentPath(dataDir: string, docId: nat): string
  {
    dataDir + "/docs/" + ToDecimal(docId) + ".doc"
  }

  /** The path of save_checkpoint and load_checkpoint */
  function CheckpointPath(dataDir: string): string
  {
    dataDir + "/checkpoints/latest.ckpt"
  }

  /** Distinct documents are stored in distinct files */
  lemma DocumentPathInjective(dataDir: string, a: nat, b: nat)
    requires DocumentPath(dataDir, a) == DocumentPath(dataDir, b)
    ensures a == b
  {
    var prefix := dataDir + "/docs/";
    var pa, pb := DocumentPath(dataDir, a), DocumentPath(dataDir, b);
    assert pa == prefix + ToDecimal(a) + ".doc";
    assert pa[|prefix|..|pa| - 4] == ToDecimal(a);
    assert pb[|prefix|..|pb| - 4] == ToDecimal(b);
    ToDecimalInjective(a, b);
  }

  // ---------------------------------------------------------------------------------
  // Documents

  /** The metadata lines of save_document, in the map's iteration order */
  function MetadataText(metadata: map<string, string>, order: seq<string>): string
    requires forall i :: 0 <= i < |order| ==> order[i] in metadata
  {
    if |order| == 0 then ""
    else order[0] + ":" + metadata[order[0]] + "\n" + MetadataText(metadata, order[1..])
  }

  /** The lines MetadataText writes */
  function MetadataLines(metadata: map<string, string>, order: seq<string>): seq<string>
    requires forall i :: 0 <= i < |order| ==> order[i] in metadata
  {
    if |order| == 0 then []
    else [order[0] + ":" + metadata[order[0]]] + MetadataLines(metadata, order[1..])
  }

  /** `order` is an iteration order of the map: it lists every key exactly once */
  predicate ListsEachKeyOnce(m: map<string, string>, order: seq<string>)
  {
    && (forall i :: 0 <= i < |order| ==> order[i] in m)
    && (forall k :: k in m ==> k in order)
    && (forall i, j :: 0 <= i < j < |order| ==> order[i] != order[j])
  }

  /** The file save_document writes: the url line, a key:value line per metadata entry,
      a "---" line, then the content as it is */
  function EncodeDocument(url: string, metadata: map<string, string>, order: seq<string>, content: string): string
    requires ListsEachKeyOnce(metadata, order)
  {
    url + "\n" + MetadataText(metadata, order) + "---\n" + content
  }

  /** What load_document appends for the lines of a file: every line after the first
      "---" line, each with "\n", leaving out every "---" line */
  function LoadedContent(lines: seq<string>, inContent: bool): string
    decreases |lines|
  {
    if |lines| == 0 then ""
    else if lines[0] == "---" then LoadedContent(lines[1..], true)
    else (if inContent then lines[0] + "\n" else "") + LoadedContent(lines[1..], inContent)
  }

  /** Storage::load_document on the text of the file: `content` is the caller's string,
      appended to */
  method LoadDocument(file: string, content: string) returns (loaded: string)
    ensures loaded == content + LoadedContent(Lines(file), false)
  {
    var lines := Lines(file);
    loaded := content;
    var inContent := false;
    var i := 0;
    while i < |lines|
      invariant 0 <= i <= |lines|
      invariant loaded + LoadedContent(lines[i..], inContent) == content + LoadedContent(lines, false)
      decreases |lines| - i
    {
      var line := lines[i];
      assert lines[i..][1..] == lines[i + 1..];
      i := i + 1;
      if line == "---" {
        inContent := true;
        continue;
      }
      if inContent {
        loaded := loaded + (line + "\n");
      }
    }
  }

  /** Content ending in a line break, or empty, as is; otherwise with "\n" added */
  function WithFinalNewline(content: string): string
  {
    if |content| == 0 || content[|content| - 1] == '\n' then content else content + "\n"
  }

  /** The lines of a text, each followed by "\n" */
  function JoinLines(lines: seq<string>): string
  {
    if |lines| == 0 then "" else lines[0] + "\n" + JoinLines(lines[1..])
  }

  /** Reading the lines of a text and writing each with "\n" restores it, up to a final
      line break */
  lemma {:induction false} JoinLinesOfText(s: string)
    decreases |s|
    ensures JoinLines(Lines(s)) == WithFinalNewline(s)
  {
    if |s| > 0 {
      match IndexOf(s, '\n')
      case None =>
        JoinOneLine(s);
      case Some(k) =>
        JoinLinesOfText(s[k + 1..]);
        JoinFirstLine(s, k);
    }
  }

  /** A text without a line break is one line, written back with "\n" added */
  lemma JoinOneLine(s: string)
    requires |s| > 0 && IndexOf(s, '\n').None?
    ensures JoinLines(Lines(s)) == WithFinalNewline(s)
  {
    assert Lines(s) == [s];
    assert s[|s| - 1] != '\n' by { assert s[|s| - 1] in s; }
    assert JoinLines([s]) == s + "\n" + JoinLines([]);
  }

  /** Writing back the first line of a text, up to its first break at k, in front of the
      rest written back */
  lemma JoinFirstLine(s: string, k: nat)
    requires |s| > 0 && IndexOf(s, '\n') == Some(k)
    requires JoinLines(Lines(s[k + 1..])) == WithFinalNewline(s[k + 1..])
    ensures JoinLines(Lines(s)) == WithFinalNewline(s)
  {
    var line, rest := s[..k], s[k + 1..];
    SplitAt(s, k);
    LinesCons(line, rest);
    JoinLinesCons(line, Lines(rest));
    FinalNewlineCons(line, rest);
  }

  /** Writing one more line in front */
  lemma JoinLinesCons(line: string, lines: seq<string>)
    ensures JoinLines([line] + lines) == line + "\n" + JoinLines(lines)
  {
    assert ([line] + lines)[1..] == lines;
  }

  /** A line and its break in front of a text do not change how the text ends */
  lemma FinalNewlineCons(line: string, rest: string)
    ensures WithFinalNewline(line + "\n" + rest) == line + "\n" + WithFinalNewline(rest)
  {
    var s := line + "\n" + rest;
    if |rest| == 0 {
      assert s == line + "\n";
    } else {
      assert s[|s| - 1] == rest[|rest| - 1];
      if rest[|rest| - 1] != '\n' {
        AppendAssoc(line + "\n", rest, "\n");
      }
    }
  }

  /** Once in the content, lines other than "---" are appended as they are */
  lemma {:induction false} LoadedContentOfText(lines: seq<string>)
    decreases |lines|
    requires "---" !in lines
    ensures LoadedContent(lines, true) == JoinLines(lines)
  {
    if |lines| > 0 {
      assert lines[0] in lines;
      LoadedContentOfText(lines[1..]);
    }
  }

  /** The lines of the metadata block, followed by the rest of the file */
  lemma {:induction false} LinesOfMetadata(metadata: map<string, string>, order: seq<string>, rest: string)
    decreases |order|
    requires forall i :: 0 <= i < |order| ==> order[i] in metadata
    requires forall k :: k in metadata ==> '\n' !in k && '\n' !in metadata[k]
    ensures Lines(MetadataText(metadata, order) + rest) == MetadataLines(metadata, order) + Lines(rest)
  {
    if |order| == 0 {
      assert MetadataText(metadata, order) + rest == rest;
    } else {
      var key := order[0];
      var value := metadata[key];
      var line := key + ":" + value;
      assert '\n' !in line by {
        assert line == key + (":" + value);
      }
      var tail := MetadataText(metadata, order[1..]);
      var lines := MetadataLines(metadata, order[1..]);
      assert MetadataText(metadata, order) + rest == line + "\n" + (tail + rest);
      LinesCons(line, tail + rest);
      LinesOfMetadata(metadata, order[1..], rest);
      assert MetadataLines(metadata, order) == [line] + lines;
      AppendAssoc([line], lines, Lines(rest));
    }
  }

  /** The i-th metadata line is the i-th key of the order with its value */
  lemma {:induction false} MetadataLinesAt(metadata: map<string, string>, order: seq<string>)
    decreases |order|
    requires forall i :: 0 <= i < |order| ==> order[i] in metadata
    ensures |MetadataLines(metadata, order)| == |order|
    ensures forall i :: 0 <= i < |order| ==> MetadataLines(metadata, order)[i] == order[i] + ":" + metadata[order[i]]
  {
    if |order| > 0 {
      MetadataLinesAt(metadata, order[1..]);
      var lines := MetadataLines(metadata, order);
      assert lines == [order[0] + ":" + metadata[order[0]]] + MetadataLines(metadata, order[1..]);
      forall i | 1 <= i < |order|
        ensures lines[i] == order[i] + ":" + metadata[order[i]]
      {
        assert order[1..][i - 1] == order[i];
      }
    }
  }

  /** A sequence without repeats has as many distinct elements as it is long */
  lemma {:induction false} DistinctKeysCount(order: seq<string>)
    requires forall i, j :: 0 <= i < j < |order| ==> order[i] != order[j]
    ensures |set k | k in order| == |order|
  {
    if |order| > 0 {
      var rest := order[1..];
      DistinctKeysCount(rest);
      assert (set k | k in order) == {order[0]} + (set k | k in rest);
      forall j | 0 <= j < |rest|
        ensures rest[j] != order[0]
      {
        assert rest[j] == order[j + 1];
      }
    }
  }

  /** save_document writes one key:value line for each metadata entry, and no other */
  lemma MetadataLinePerEntry(metadata: map<string, string>, order: seq<string>)
    requires ListsEachKeyOnce(metadata, order)
    ensures |MetadataLines(metadata, order)| == |metadata|
    ensures forall k :: k in metadata ==> k + ":" + metadata[k] in MetadataLines(metadata, order)
  {
    MetadataLinesAt(metadata, order);
    DistinctKeysCount(order);
    assert metadata.Keys == set k | k in order;
    forall k | k in metadata
      ensures k + ":" + metadata[k] in MetadataLines(metadata, order)
    {
      var i :| 0 <= i < |order| && order[i] == k;
      assert MetadataLines(metadata, order)[i] == k + ":" + metadata[k];
    }
  }

  /** Metadata lines hold ':', so none is the "---" separator, and they are skipped */
  lemma {:induction false} LoadedContentSkipsMetadata(metadata: map<string, string>, order: seq<string>, rest: seq<string>)
    decreases |order|
    requires forall i :: 0 <= i < |order| ==> order[i] in metadata
    ensures LoadedContent(MetadataLines(metadata, order) + rest, false) == LoadedContent(rest, false)
  {
    if |order| == 0 {
      assert MetadataLines(metadata, order) + rest == rest;
    } else {
      var key := order[0];
      var line := key + ":" + metadata[key];
      assert line != "---" by {
        assert line[|key|] == ':';
        assert ':' in line;
        assert ':' !in "---";
      }
      var lines := MetadataLines(metadata, order[1..]);
      assert MetadataLines(metadata, order) + rest == [line] + (lines + rest);
      assert ([line] + (lines + rest))[0] == line;
      assert ([line] + (lines + rest))[1..] == lines + rest;
      LoadedContentSkipsMetadata(metadata, order[1..], rest);
    }
  }

  /** The lines of a saved document */
  lemma LinesOfDocument(url: string, metadata: map<string, string>, order: seq<string>, content: string)
    requires ListsEachKeyOnce(metadata, order)
    requires '\n' !in url
    requires forall k :: k in metadata ==> '\n' !in k && '\n' !in metadata[k]
    ensures Lines(EncodeDocument(url, metadata, order, content))
      == [url] + MetadataLines(metadata, order) + ["---"] + Lines(content)
  {
    var meta := MetadataText(metadata, order);
    var body := "---" + "\n" + content;
    assert "---\n" == "---" + "\n";
    AppendAssoc(url + "\n", meta, "---\n");
    AppendAssoc(url + "\n", meta + "---\n", content);
    AppendAssoc(meta, "---\n", content);
    AppendAssoc(url + "\n", meta, body);
    assert EncodeDocument(url, metadata, order, content) == url + "\n" + (meta + body);
    LinesCons(url, meta + body);
    LinesOfMetadata(metadata, order, body);
    LinesCons("---", content);
    var ml := MetadataLines(metadata, order);
    AppendAssoc(ml, ["---"], Lines(content));
    AppendAssoc([url], ml, ["---"] + Lines(content));
    AppendAssoc([url] + ml, ["---"], Lines(content));
  }

  /** Document round trip: with a url, keys and values free of line breaks, a url other
      than "---" and no content line equal to "---", loading a saved document appends its
      content, with a final "\n" added when the content lacks one */
  lemma DocumentRoundTrip(url: string, metadata: map<string, string>, order: seq<string>, content: string)
    requires ListsEachKeyOnce(metadata, order)
    requires '\n' !in url && url != "---"
    requires forall k :: k in metadata ==> '\n' !in k && '\n' !in metadata[k]
    requires "---" !in Lines(content)
    ensures LoadedContent(Lines(EncodeDocument(url, metadata, order, content)), false) == WithFinalNewline(content)
  {
    LinesOfDocument(url, metadata, order, content);
    var ml := MetadataLines(metadata, order);
    var cl := Lines(content);
    var tail := ["---"] + cl;
    AppendAssoc([url], ml, ["---"]);
    AppendAssoc([url], ml + ["---"], cl);
    AppendAssoc([url], ml, tail);
    AppendAssoc(ml, ["---"], cl);
    var lines := [url] + (ml + tail);
    assert Lines(EncodeDocument(url, metadata, order, content)) == lines;
    assert lines[0] == url && lines[1..] == ml + tail;
    assert LoadedContent(lines, false) == LoadedContent(ml + tail, false);
    LoadedContentSkipsMetadata(metadata, order, tail);
    assert tail[0] == "---" && tail[1..] == cl;
    assert LoadedContent(tail, false) == LoadedContent(cl, true);
    LoadedContentOfText(cl);
    JoinLinesOfText(content);
  }

  /** The lines of a three-line text */
  lemma LinesOfThree(a: string, b: string, c: string)
    requires '\n' !in a && '\n' !in b && '\n' !in c
    ensures Lines(a + "\n" + b + "\n" + c + "\n") == [a, b, c]
  {
    var rest := c + "\n";
    var middle := b + "\n" + rest;
    AppendAssoc(a + "\n" + b + "\n", c, "\n");
    AppendAssoc(a + "\n", b, "\n");
    AppendAssoc(a + "\n", b + "\n", rest);
    assert a + "\n" + b + "\n" + c + "\n" == a + "\n" + middle;
    LinesCons(a, middle);
    LinesCons(b, rest);
    assert rest == c + "\n" + "";
    LinesCons(c, "");
    assert Lines("") == [];
    assert [a] + ([b] + ([c] + [])) == [a, b, c];
  }

  /** A "---" line inside the content is lost on loading: content read as the lines
      before, "---", after (as LinesOfThree gives for before + "\n---\n" + after + "\n")
      loads as before + "\n" + after + "\n" */
  lemma SeparatorInContentIsLost(url: string, content: string, before: string, after: string)
    requires '\n' !in url && url != "---"
    requires before != "---" && after != "---"
    requires Lines(content) == [before, "---", after]
    ensures LoadedContent(Lines(EncodeDocument(url, map[], [], content)), false) == before + "\n" + after + "\n"
  {
    BareDocumentLines(url, content);
    LoadedPastHeader(url, Lines(content));
    LoadedSeparatedLines(before, after);
    AppendAssoc(before + "\n", after, "\n");
  }

  /** A document without metadata reads as its url, "---", then its content's lines */
  lemma BareDocumentLines(url: string, content: string)
    requires '\n' !in url
    ensures Lines(EncodeDocument(url, map[], [], content)) == [url, "---"] + Lines(content)
  {
    LinesOfDocument(url, map[], [], content);
    assert MetadataLines(map[], []) == [];
    assert [url] + [] + ["---"] == [url, "---"];
  }

  /** Loading skips the url line and enters the content at "---" */
  lemma LoadedPastHeader(url: string, cl: seq<string>)
    requires url != "---"
    ensures LoadedContent([url, "---"] + cl, false) == LoadedContent(cl, true)
  {
    var lines := [url, "---"] + cl;
    assert lines[1..] == ["---"] + cl;
    assert (["---"] + cl)[1..] == cl;
  }

  /** Inside the content, a "---" line between two others is dropped */
  lemma LoadedSeparatedLines(before: string, after: string)
    requires before != "---" && after != "---"
    ensures LoadedContent([before, "---", after], true) == before + "\n" + (after + "\n")
  {
    assert [before, "---", after][1..] == ["---", after];
    assert ["---", after][1..] == [after];
    assert LoadedContent([after], true) == after + "\n" + LoadedContent([], true);
  }

  // ---------------------------------------------------------------------------------
  // Checkpoints

  /** One line of save_checkpoint */
  function CheckpointLine(key: string, value: string): string
  {
    key + "=" + value + "\n"
  }

  /** The file save_checkpoint writes: one key=value line per entry */
  function EncodeCheckpoint(state: map<string, string>, order: seq<string>): string
    requires forall i :: 0 <= i < |order| ==> order[i] in state
  {
    if |order| == 0 then ""
    else CheckpointLine(order[0], state[order[0]]) + EncodeCheckpoint(state, order[1..])
  }

  /** One line of load_checkpoint: split at the first '=', or ignored without one */
  function ApplyCheckpointLine(state: map<string, string>, line: string): map<string, string>
  {
    match IndexOf(line, '=')
    case None => state
    case Some(pos) => state[line[..pos] := line[pos + 1..]]
  }

  /** The caller's map after load_checkpoint reads the given lines */
  function ApplyCheckpointLines(state: map<string, string>, lines: seq<string>): map<string, string>
    decreases |lines|
  {
    if |lines| == 0 then state else ApplyCheckpointLines(ApplyCheckpointLine(state, lines[0]), lines[1..])
  }

  /** Storage::load_checkpoint on the text of the file, updating the caller's map */
  method LoadCheckpoint(file: string, state: map<string, string>) returns (loaded: map<string, string>)
    ensures loaded == ApplyCheckpointLines(state, Lines(file))
  {
    var lines := Lines(file);
    loaded := state;
    for i := 0 to |lines|
      invariant ApplyCheckpointLines(loaded, lines[i..]) == ApplyCheckpointLines(state, lines)
    {
      assert lines[i..][1..] == lines[i + 1..];
      var line := lines[i];
      var pos := IndexOf(line, '=');
      if pos.Some? {
        var key := line[..pos.value];
        var value := line[pos.value + 1..];
        loaded := loaded[key := value];
      }
    }
  }

  /** A key=value line with no '=' in the key sets exactly that key */
  lemma ApplyEntryLine(state: map<string, string>, key: string, value: string)
    requires '=' !in key
    ensures ApplyCheckpointLine(state, key + "=" + value) == state[key := value]
  {
    var line := key + "=" + value;
    assert line == key + ['='] + value;
    FirstIndexAfterPrefix(key, '=', value);
    assert line[..|key|] == key;
    assert line[|key| + 1..] == value;
  }

  /** The entries of `state` named in `order` */
  function Entries(state: map<string, string>, order: seq<string>): map<string, string>
    requires forall i :: 0 <= i < |order| ==> order[i] in state
  {
    map k | k in order :: state[k]
  }

  /** The entries named by an order that lists every key are the whole map */
  lemma EntriesOfAllKeys(state: map<string, string>, order: seq<string>)
    requires ListsEachKeyOnce(state, order)
    ensures Entries(state, order) == state
  {
    assert Entries(state, order).Keys == state.Keys;
  }

  /** Setting the first key, then merging the entries of the other keys, merges all */
  lemma EntriesCons(init: map<string, string>, state: map<string, string>, order: seq<string>)
    requires |order| > 0
    requires forall i :: 0 <= i < |order| ==> order[i] in state
    requires forall i, j :: 0 <= i < j < |order| ==> order[i] != order[j]
    ensures init[order[0] := state[order[0]]] + Entries(state, order[1..]) == init + Entries(state, order)
  {
    var k := order[0];
    var es := Entries(state, order[1..]);
    assert k !in es;
    assert Entries(state, order) == es[k := state[k]];
  }

  /** The first line of a saved checkpoint sets its first key */
  lemma CheckpointStep(init: map<string, string>, state: map<string, string>, order: seq<string>)
    requires |order| > 0
    requires forall i :: 0 <= i < |order| ==> order[i] in state
    requires forall k :: k in state ==> '=' !in k && '\n' !in k && '\n' !in state[k]
    ensures ApplyCheckpointLines(init, Lines(EncodeCheckpoint(state, order)))
      == ApplyCheckpointLines(init[order[0] := state[order[0]]], Lines(EncodeCheckpoint(state, order[1..])))
  {
    var k := order[0];
    var line := k + "=" + state[k];
    var tail := EncodeCheckpoint(state, order[1..]);
    assert '\n' !in line by {
      assert line == k + ("=" + state[k]);
    }
    assert EncodeCheckpoint(state, order) == line + "\n" + tail by {
      AppendAssoc(line, "\n", tail);
    }
    LinesCons(line, tail);
    var lines := [line] + Lines(tail);
    assert lines[0] == line && lines[1..] == Lines(tail);
    ApplyEntryLine(init, k, state[k]);
  }

  lemma {:induction false} CheckpointLoadsEntries(init: map<string, string>, state: map<string, string>, order: seq<string>)
    decreases |order|
    requires forall i :: 0 <= i < |order| ==> order[i] in state
    requires forall i, j :: 0 <= i < j < |order| ==> order[i] != order[j]
    requires forall k :: k in state ==> '=' !in k && '\n' !in k && '\n' !in state[k]
    ensures ApplyCheckpointLines(init, Lines(EncodeCheckpoint(state, order))) == init + Entries(state, order)
  {
    if |order| == 0 {
      assert Entries(state, order) == map[];
      assert init + map[] == init;
    } else {
      var k := order[0];
      var next := init[k := state[k]];
      CheckpointStep(init, state, order);
      assert forall i :: 0 <= i < |order[1..]| ==> order[1..][i] == order[i + 1];
      CheckpointLoadsEntries(next, state, order[1..]);
      EntriesCons(init, state, order);
    }
  }

  /** Checkpoint round trip: with keys free of '=' and line breaks and values free of line
      breaks, loading a saved map into an empty map yields the map, whatever the order it
      was written in; loading into a non-empty map merges, the file's entries winning */
  lemma CheckpointRoundTrip(init: map<string, string>, state: map<string, string>, order: seq<string>)
    requires ListsEachKeyOnce(state, order)
    requires forall k :: k in state ==> '=' !in k && '\n' !in k && '\n' !in state[k]
    ensures ApplyCheckpointLines(init, Lines(EncodeCheckpoint(state, order))) == init + state
    ensures ApplyCheckpointLines(map[], Lines(EncodeCheckpoint(state, order))) == state
  {
    CheckpointLoadsEntries(init, state, order);
    CheckpointLoadsEntries(map[], state, order);
    EntriesOfAllKeys(state, order);
    assert map[] + state == state;
  }

  /** A later line for the same key overwrites an earlier one */
  lemma CheckpointLastWins(key: string, v1: string, v2: string)
    requires '=' !in key && '\n' !in key && '\n' !in v1 && '\n' !in v2
    ensures ApplyCheckpointLines(map[], Lines(CheckpointLine(key, v1) + CheckpointLine(key, v2))) == map[key := v2]
  {
    var l1, l2 := key + "=" + v1, key + "=" + v2;
    var lines := [l1, l2];
    assert Lines(CheckpointLine(key, v1) + CheckpointLine(key, v2)) == lines by {
      assert '\n' !in l1 by { assert l1 == key + ("=" + v1); }
      assert '\n' !in l2 by { assert l2 == key + ("=" + v2); }
      var r2 := l2 + "\n" + "";
      assert CheckpointLine(key, v1) + CheckpointLine(key, v2) == l1 + "\n" + r2 by {
        AppendAssoc(l1 + "\n", l2, "\n");
      }
      LinesCons(l1, r2);
      LinesCons(l2, "");
    }
    var m1 := map[][key := v1];
    assert ApplyCheckpointLines(map[], lines) == ApplyCheckpointLines(m1, [l2]) by {
      assert lines[1..] == [l2];
      ApplyEntryLine(map[], key, v1);
    }
    assert ApplyCheckpointLines(m1, [l2]) == m1[key := v2] by {
      assert [l2][1..] == [];
      ApplyEntryLine(m1, key, v2);
    }
    assert m1[key := v2] == map[key := v2];
  }

  /** A line without '=' is ignored */
  lemma CheckpointIgnoresLineWithoutEquals(state: map<string, string>, line: string)
    requires '=' !in line
    ensures ApplyCheckpointLine(state, line) == state
  {
  }

  // ---------------------------------------------------------------------------------
  // Listing documents

  /** A directory entry of the docs directory: its stem, its extension and whether it is a
      regular file */
  datatype DirEntry = DirEntry(stem: string, extension: string, isRegularFile: bool)

  /** The id of one entry: a regular ".doc" file whose stem std::stoull accepts */
  function DocIdOfEntry(entry: DirEntry): Option<nat>
  {
    if entry.isRegularFile && entry.extension == ".doc" then ParseU64(entry.stem) else None
  }

  /** The ids list_documents collects, in directory order */
  function DocIds(entries: seq<DirEntry>): seq<nat>
    decreases |entries|
  {
    if |entries| == 0 then []
    else IdsOfEntry(entries[0]) + DocIds(entries[1..])
  }

  /** The ids one entry contributes: its id, or none */
  function IdsOfEntry(entry: DirEntry): seq<nat>
  {
    match DocIdOfEntry(entry) case Some(id) => [id] case None => []
  }

  /** One step of the listing loop: the entry at i contributes its ids ahead of the rest */
  lemma DocIdsStep(entries: seq<DirEntry>, i: nat, docIds: seq<nat>)
    requires i < |entries|
    ensures docIds + DocIds(entries[i..]) == (docIds + IdsOfEntry(entries[i])) + DocIds(entries[i + 1..])
  {
    assert entries[i..][1..] == entries[i + 1..];
    AppendAssoc(docIds, IdsOfEntry(entries[i]), DocIds(entries[i + 1..]));
  }

  /** Storage::list_documents over the entries of the docs directory, in directory order */
  method ListDocuments(entries: seq<DirEntry>) returns (docIds: seq<nat>)
    ensures docIds == DocIds(entries)
    ensures forall i :: 0 <= i < |docIds| ==> docIds[i] < U64Limit
  {
    docIds := [];
    for i := 0 to |entries|
      invariant docIds + DocIds(entries[i..]) == DocIds(entries)
      invariant forall j :: 0 <= j < |docIds| ==> docIds[j] < U64Limit
    {
      DocIdsStep(entries, i, docIds);
      ghost var before := docIds;
      var entry := entries[i];
      if entry.isRegularFile && entry.extension == ".doc" {
        var parsed := ParseU64(entry.stem);
        if parsed.Some? {
          docIds := docIds + [parsed.value];
        }
      }
      assert docIds == before + IdsOfEntry(entry);
    }
    assert entries[|entries|..] == [];
  }

  /** The directory entry get_document_path creates for an id */
  function SavedEntry(docId: nat): DirEntry
  {
    DirEntry(ToDecimal(docId), ".doc", true)
  }

  /** list_documents finds every saved document, in directory order, under its own id */
  lemma {:induction false} ListSavedDocuments(ids: seq<nat>)
    decreases |ids|
    requires forall i :: 0 <= i < |ids| ==> ids[i] < U64Limit
    ensures DocIds(seq(|ids|, i requires 0 <= i < |ids| => SavedEntry(ids[i]))) == ids
  {
    var entries := seq(|ids|, i requires 0 <= i < |ids| => SavedEntry(ids[i]));
    if |ids| > 0 {
      ParseToDecimal(ids[0]);
      ListSavedDocuments(ids[1..]);
      assert entries[1..] == seq(|ids[1..]|, i requires 0 <= i < |ids[1..]| => SavedEntry(ids[1..][i]));
    }
  }

  /** Entries that are not regular ".doc" files, or whose stem is not a number, are skipped */
  lemma SkippedEntry(entry: DirEntry)
    requires !entry.isRegularFile || entry.extension != ".doc" || exists i :: 0 <= i < |entry.stem| && !IsDigit(entry.stem[i])
    ensures DocIds([entry]) == []
  {
  }
}
