/** Rules.buildBSON (main/Rules.java): the database record of a page, one
    field per declared index entry, each value resolved from a placeholder,
    a quoted literal or an extraction expression. */
module Records {
  import opened Strings
  import opened Html
  import opened Extraction
  import opened RuleEngine

  /** An org.bson.Document: its (key, value) pairs in insertion order. */
  type Record = seq<(string, string)>

  /** The keys of `d`, in order. */
  function Keys(d: Record): (keys: seq<string>)
    ensures |keys| == |d| && forall i :: 0 <= i < |d| ==> keys[i] == d[i].0
  {
    seq(|d|, i requires 0 <= i < |d| => d[i].0)
  }

  predicate DistinctKeys(d: Record) {
    forall i, j :: 0 <= i < j < |d| ==> d[i].0 != d[j].0
  }

  /** The first position of `key` in `keys`. */
  function Position(keys: seq<string>, key: string): (i: nat)
    requires key in keys
    ensures i < |keys| && keys[i] == key && key !in keys[..i]
  {
    if keys[0] == key then 0
    else
      assert keys == [keys[0]] + keys[1..];
      var j := Position(keys[1..], key);
      assert keys[..j + 1] == [keys[0]] + keys[1..][..j];
      j + 1
  }

  /** Document.append(key, value), which puts into the document's
      LinkedHashMap: a key already present keeps its position and takes the
      new value; a new key goes at the end. */
  function Append(d: Record, key: string, value: string): (r: Record)
    ensures key !in Keys(d) ==> r == d + [(key, value)]
    ensures key in Keys(d) ==> |r| == |d|
    ensures forall i :: 0 <= i < |d| ==> r[i].0 == d[i].0
    ensures forall i :: 0 <= i < |d| && d[i].0 != key ==> r[i] == d[i]
    ensures key in Keys(r)
  {
    if key in Keys(d) then d[Position(Keys(d), key) := (key, value)]
    else
      var r := d + [(key, value)];
      assert Keys(r)[|d|] == key;
      r
  }

  /** Appending keeps the keys distinct, and the key then maps to the new value. */
  lemma AppendDistinct(d: Record, key: string, value: string)
    requires DistinctKeys(d)
    ensures DistinctKeys(Append(d, key, value))
    ensures forall i :: 0 <= i < |Append(d, key, value)| && Append(d, key, value)[i].0 == key ==>
      Append(d, key, value)[i].1 == value
  {
    if key !in Keys(d) {
      var r := Append(d, key, value);
      forall i | 0 <= i < |d| ensures r[i].0 != key {
        assert Keys(d)[i] == d[i].0;
      }
    }
  }

  const STRING_INDEX_OUT_OF_BOUNDS := "StringIndexOutOfBoundsException"

  /** The $-placeholder values of a page: its file type, its size text, its
      file name and its path in the save directory. */
  datatype Defaults = Defaults(fileType: string, size: string, fileName: string, filePath: string)

  /** The defaults buildBSON computes from the page URL `src` and its save
      location `savLoc`: the text after the last '.', the text after the last
      '/', and `subdir + savLoc`. `sizeText` is Double.toString(length/1000),
      which is floating point and is not modelled. */
  function PageDefaults(c: Config, src: string, savLoc: string, sizeText: string): (d: Defaults)
    ensures '.' !in d.fileType && '/' !in d.fileName
    ensures '.' in src ==> |d.fileType| < |src| && src == src[..|src| - |d.fileType| - 1] + "." + d.fileType
    ensures '/' in src ==> |d.fileName| < |src| && src == src[..|src| - |d.fileName| - 1] + "/" + d.fileName
    ensures '.' !in src ==> d.fileType == src
    ensures '/' !in src ==> d.fileName == src
    ensures d.filePath == c.subdir + savLoc && d.size == sizeText
  {
    Defaults(AfterLast(src, '.'), sizeText, AfterLast(src, '/'), c.subdir + savLoc)
  }

  const PLACEHOLDERS := {"$fileType", "$size", "$fileName", "$filePath"}

  predicate Quoted(val: string) {
    StartsWith(val, "'") || StartsWith(val, "\"")
  }

  /** The value buildBSON writes for the index expression `val`. A `$` value
      names a default (an unknown name is written as it is); a value starting
      with a quote loses its first and last characters (one of length 1 makes
      substring raise); anything else is an extraction expression over the
      page. */
  function Resolve(d: Defaults, dom: Dom, intValue: string -> int, page: Element, val: string): Result<string>
  {
    if StartsWith(val, "$") then
      Ok(if val == "$fileType" then d.fileType
         else if val == "$size" then d.size
         else if val == "$fileName" then d.fileName
         else if val == "$filePath" then d.filePath
         else val)
    else if Quoted(val) then
      if |val| >= 2 then Ok(val[1..|val| - 1])
      else Fail(STRING_INDEX_OUT_OF_BOUNDS)
    else EvalText(dom, intValue, val, page)
  }

  /** What each kind of value resolves to. */
  lemma ResolveOutcome(d: Defaults, dom: Dom, intValue: string -> int, page: Element, val: string)
    ensures var r := Resolve(d, dom, intValue, page, val);
      && (StartsWith(val, "$") ==> r.Ok?)
      && (val == "$fileType" ==> r == Ok(d.fileType))
      && (val == "$size" ==> r == Ok(d.size))
      && (val == "$fileName" ==> r == Ok(d.fileName))
      && (val == "$filePath" ==> r == Ok(d.filePath))
      && (StartsWith(val, "$") && val !in PLACEHOLDERS ==> r == Ok(val))
      && (!StartsWith(val, "$") && Quoted(val) && |val| >= 2 ==>
            r.Ok? && val == [val[0]] + r.value + [val[|val| - 1]])
      && (!StartsWith(val, "$") && Quoted(val) && |val| < 2 ==> r == Fail(STRING_INDEX_OUT_OF_BOUNDS))
      && (!StartsWith(val, "$") && !Quoted(val) ==> r == EvalText(dom, intValue, val, page))
  {
    if !StartsWith(val, "$") && Quoted(val) && |val| >= 2 {
      assert val == [val[0]] + val[1..|val| - 1] + [val[|val| - 1]];
    }
  }

  /** The document that appending the index entries `fields`, in order, to
      `doc` yields, or the exception the first failing value raises. */
  function Build(d: Defaults, dom: Dom, intValue: string -> int, page: Element, doc: Record, fields: seq<Index>)
    : Result<Record>
    decreases |fields|
  {
    if fields == [] then Ok(doc)
    else
      match Resolve(d, dom, intValue, page, fields[0].val)
      case Fail(x) => Fail(x)
      case Ok(v) => Build(d, dom, intValue, page, Append(doc, fields[0].attr, v), fields[1..])
  }

  /** Whatever the fields, a built record keeps the keys of `doc` in front,
      in order, gains at most one entry per field, and holds every field's
      name as a key. */
  lemma {:induction false} BuildKeepsKeys(d: Defaults, dom: Dom, intValue: string -> int, page: Element,
                                          doc: Record, fields: seq<Index>)
    ensures var r := Build(d, dom, intValue, page, doc, fields);
      r.Ok? ==>
        && |doc| <= |r.value| <= |doc| + |fields|
        && (forall i :: 0 <= i < |doc| ==> r.value[i].0 == doc[i].0)
        && (forall i :: 0 <= i < |fields| ==> fields[i].attr in Keys(r.value))
    decreases |fields|
  {
    var r := Build(d, dom, intValue, page, doc, fields);
    if fields != [] && r.Ok? {
      var v := Resolve(d, dom, intValue, page, fields[0].val).value;
      var next := Append(doc, fields[0].attr, v);
      BuildKeepsKeys(d, dom, intValue, page, next, fields[1..]);
      assert r == Build(d, dom, intValue, page, next, fields[1..]);
      forall i | 1 <= i < |fields| ensures fields[i].attr in Keys(r.value) {
        assert fields[i] == fields[1..][i - 1];
      }
      var p := Position(Keys(next), fields[0].attr);
      assert Keys(r.value)[p] == fields[0].attr;
    }
  }

  predicate DistinctAttributes(fields: seq<Index>) {
    forall i, j :: 0 <= i < j < |fields| ==> fields[i].attr != fields[j].attr
  }

  /** `entries` holds, position by position, each field's name and its
      resolved value. */
  predicate ResolvedEntries(d: Defaults, dom: Dom, intValue: string -> int, page: Element,
                            fields: seq<Index>, entries: Record)
  {
    && |entries| == |fields|
    && forall i :: 0 <= i < |fields| ==>
         entries[i].0 == fields[i].attr && Resolve(d, dom, intValue, page, fields[i].val) == Ok(entries[i].1)
  }

  /** When the fields have distinct names, none already in `doc`, and every
      value resolves, the record is `doc` followed by exactly one entry per
      field, in order, keyed by its name and holding its resolved value. */
  lemma {:induction false} BuildOneEntryPerField(d: Defaults, dom: Dom, intValue: string -> int, page: Element,
                                                 doc: Record, fields: seq<Index>, result: Record)
    requires DistinctAttributes(fields)
    requires forall i :: 0 <= i < |fields| ==> fields[i].attr !in Keys(doc)
    requires Build(d, dom, intValue, page, doc, fields) == Ok(result)
    ensures |result| == |doc| + |fields| && result[..|doc|] == doc
    ensures ResolvedEntries(d, dom, intValue, page, fields, result[|doc|..])
    decreases |fields|
  {
    if fields == [] {
      assert result == doc;
    } else {
      BuildFirstNew(d, dom, intValue, page, doc, fields, result);
      var f := fields[0];
      var v := Resolve(d, dom, intValue, page, f.val).value;
      var next := doc + [(f.attr, v)];
      BuildOneEntryPerField(d, dom, intValue, page, next, fields[1..], result);
      PrefixStep(doc, (f.attr, v), result);
      EntriesShift(d, dom, intValue, page, fields, result[|doc|], result[|next|..]);
    }
  }

  /** A record that starts with `doc + [entry]` starts with `doc`, holds
      `entry` next, and continues after it. */
  lemma PrefixStep(doc: Record, entry: (string, string), result: Record)
    requires |doc| + 1 <= |result| && result[..|doc| + 1] == doc + [entry]
    ensures result[..|doc|] == doc && result[|doc|] == entry
    ensures result[|doc|..] == [entry] + result[|doc| + 1..]
  {
    assert result[..|doc|] == result[..|doc| + 1][..|doc|];
    assert result[|doc|] == result[..|doc| + 1][|doc|];
  }

  /** One step of `BuildOneEntryPerField`: a first field whose name is new
      resolves and is added at the end, and the remaining fields still have
      names that are new. */
  lemma BuildFirstNew(d: Defaults, dom: Dom, intValue: string -> int, page: Element,
                      doc: Record, fields: seq<Index>, result: Record)
    requires fields != [] && DistinctAttributes(fields)
    requires forall i :: 0 <= i < |fields| ==> fields[i].attr !in Keys(doc)
    requires Build(d, dom, intValue, page, doc, fields) == Ok(result)
    ensures Resolve(d, dom, intValue, page, fields[0].val).Ok?
    ensures var next := doc + [(fields[0].attr, Resolve(d, dom, intValue, page, fields[0].val).value)];
      && Build(d, dom, intValue, page, next, fields[1..]) == Ok(result)
      && DistinctAttributes(fields[1..])
      && forall i :: 0 <= i < |fields| - 1 ==> fields[1..][i].attr !in Keys(next)
  {
    var v := Resolve(d, dom, intValue, page, fields[0].val).value;
    var next := doc + [(fields[0].attr, v)];
    assert Append(doc, fields[0].attr, v) == next;
    forall i | 0 <= i < |fields| - 1 ensures fields[1..][i].attr !in Keys(next) {
      assert fields[1..][i] == fields[i + 1];
      assert Keys(next) == Keys(doc) + [fields[0].attr];
    }
  }

  /** The entry for the first field followed by the entries for the others
      are the entries for all the fields. */
  lemma EntriesShift(d: Defaults, dom: Dom, intValue: string -> int, page: Element,
                     fields: seq<Index>, first: (string, string), rest: Record)
    requires fields != []
    requires first.0 == fields[0].attr && Resolve(d, dom, intValue, page, fields[0].val) == Ok(first.1)
    requires ResolvedEntries(d, dom, intValue, page, fields[1..], rest)
    ensures ResolvedEntries(d, dom, intValue, page, fields, [first] + rest)
  {
    var entries := [first] + rest;
    forall i | 1 <= i < |fields|
      ensures entries[i].0 == fields[i].attr
      ensures Resolve(d, dom, intValue, page, fields[i].val) == Ok(entries[i].1)
    {
      assert fields[i] == fields[1..][i - 1];
      assert entries[i] == rest[i - 1];
    }
  }

  /** buildBSON's record: one entry per declared field, in order. */
  lemma RecordHasOneEntryPerField(d: Defaults, dom: Dom, intValue: string -> int, page: Element,
                                  fields: seq<Index>, result: Record)
    requires DistinctAttributes(fields)
    requires Build(d, dom, intValue, page, [], fields) == Ok(result)
    ensures |result| == |fields|
    ensures forall i :: 0 <= i < |fields| ==>
      result[i].0 == fields[i].attr && Resolve(d, dom, intValue, page, fields[i].val) == Ok(result[i].1)
  {
    BuildOneEntryPerField(d, dom, intValue, page, [], fields, result);
    assert result[0..] == result;
  }

  /** The record fails exactly when some field's value fails. */
  lemma {:induction false} BuildFailsIffSomeFieldFails(d: Defaults, dom: Dom, intValue: string -> int,
                                                       page: Element, doc: Record, fields: seq<Index>)
    ensures Build(d, dom, intValue, page, doc, fields).Fail? <==>
      exists i :: 0 <= i < |fields| && Resolve(d, dom, intValue, page, fields[i].val).Fail?
    decreases |fields|
  {
    if fields != [] {
      match Resolve(d, dom, intValue, page, fields[0].val)
      case Fail(_) =>
      case Ok(v) =>
        BuildFailsIffSomeFieldFails(d, dom, intValue, page, Append(doc, fields[0].attr, v), fields[1..]);
        if exists i :: 0 <= i < |fields| && Resolve(d, dom, intValue, page, fields[i].val).Fail? {
          var i :| 0 <= i < |fields| && Resolve(d, dom, intValue, page, fields[i].val).Fail?;
          assert fields[1..][i - 1] == fields[i];
        }
        if exists i :: 0 <= i < |fields| - 1 && Resolve(d, dom, intValue, page, fields[1..][i].val).Fail? {
          var i :| 0 <= i < |fields| - 1 && Resolve(d, dom, intValue, page, fields[1..][i].val).Fail?;
          assert fields[1..][i] == fields[i + 1];
        }
    }
  }

  /** A record built on one with distinct keys has distinct keys: a field
      name that occurs twice yields a single entry. */
  lemma {:induction false} BuildDistinctKeys(d: Defaults, dom: Dom, intValue: string -> int, page: Element,
                                             doc: Record, fields: seq<Index>, result: Record)
    requires DistinctKeys(doc)
    requires Build(d, dom, intValue, page, doc, fields) == Ok(result)
    ensures DistinctKeys(result)
    decreases |fields|
  {
    if fields != [] {
      var v := Resolve(d, dom, intValue, page, fields[0].val).value;
      AppendDistinct(doc, fields[0].attr, v);
      BuildDistinctKeys(d, dom, intValue, page, Append(doc, fields[0].attr, v), fields[1..], result);
    }
  }

  /** buildBSON: compute the defaults, then resolve and append each index
      entry in order. A failing value is an exception that escapes. */
  method BuildBSON(c: Config, dom: Dom, intValue: string -> int, formatSize: int -> string,
                   src: string, savLoc: string, length: int, page: Element)
    returns (r: Result<Record>)
    ensures r == Build(PageDefaults(c, src, savLoc, formatSize(length)), dom, intValue, page, [], c.toIndex)
  {
    var filePath := c.subdir + savLoc;
    var lastIndex := LastIndexOfChar(src, '/') + 1;
    var fileName := src[lastIndex..];
    var fileSize := formatSize(length);
    var fileType := src[LastIndexOfChar(src, '.') + 1..];
    var d := Defaults(fileType, fileSize, fileName, filePath);
    assert d == PageDefaults(c, src, savLoc, formatSize(length));
    ghost var whole := Build(d, dom, intValue, page, [], c.toIndex);
    var doc: Record := [];
    assert c.toIndex[0..] == c.toIndex;
    for i := 0 to |c.toIndex|
      invariant Build(d, dom, intValue, page, doc, c.toIndex[i..]) == whole
    {
      var index := c.toIndex[i];
      assert c.toIndex[i..][1..] == c.toIndex[i + 1..];
      var valToInput := ResolveValue(d, dom, intValue, page, index.val);
      if valToInput.Fail? {
        return Fail(valToInput.exception);
      }
      doc := Append(doc, index.attr, valToInput.value);
    }
    assert c.toIndex[|c.toIndex|..] == [];
    return Ok(doc);
  }

  /** The branches of buildBSON's loop body that compute the value to append. */
  method ResolveValue(d: Defaults, dom: Dom, intValue: string -> int, page: Element, val: string)
    returns (r: Result<string>)
    ensures r == Resolve(d, dom, intValue, page, val)
  {
    var valToInput := val;
    if StartsWith(val, "$") {
      if val == "$fileType" {
        valToInput := d.fileType;
      } else if val == "$size" {
        valToInput := d.size;
      } else if val == "$fileName" {
        valToInput := d.fileName;
      } else if val == "$filePath" {
        valToInput := d.filePath;
      }
    } else if StartsWith(val, "'") || StartsWith(val, "\"") {
      if |valToInput| < 2 {
        return Fail(STRING_INDEX_OUT_OF_BOUNDS);
      }
      valToInput := val[1..|valToInput| - 1];
    } else {
      r := ParseCode(dom, intValue, val, page);
      return;
    }
    return Ok(valToInput);
  }
}
