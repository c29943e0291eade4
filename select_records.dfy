/**
 * The record helpers of Select.java: the user-requested projection of a
 * name record, the fields a query mentions (`~field.sub` tokens), the
 * guids of a set of records, and the conversion of stored records into the
 * form returned to users.
 */
module SelectRecords {
  import opened Wrappers
  import opened Json
  import opened Protocol
  import opened SelectRequestPacket

  /**
   * The top-level keys of a stored name record (NameRecord.NAME and
   * NameRecord.VALUES_MAP; NameRecord is not part of this model, the
   * spellings follow the sample queries at the end of Select.java).
   */
  const NAME := "nr_name"
  const VALUES_MAP := "nr_valuesMap"
  /** The key under which a returned record carries its guid. */
  const GUID_KEY := "_GUID"

  // ---------------------------------------------------------------------
  // Projection

  /** The projection asks for everything: null, or a list whose first element is ENTIRE_RECORD. */
  predicate WholeRecord(projection: Option<seq<string>>)
  {
    projection.None? || (|projection.value| > 0 && projection.value[0] == ENTIRE_RECORD)
  }

  /** The fields a projection names, as the set `fieldsMap` holds them. */
  function Elements(projection: seq<string>): set<string>
  {
    set f | f in projection
  }

  /** The entries of `m` whose keys are in `keep`. */
  function KeepKeys(m: Object, keep: set<string>): (r: Object)
    ensures r.Keys == m.Keys * keep
    ensures forall k :: k in r ==> r[k] == m[k]
  {
    map k | k in m && k in keep :: m[k]
  }

  /**
   * The record `performProjectionForUserRequestedAttributes` returns: the
   * record itself for a whole-record projection; otherwise only the name
   * and the values map, the latter cut down to the projected fields; null
   * when the values map is not a JSON object.
   */
  function Projected(projection: Option<seq<string>>, record: Object): (r: Option<Object>)
    ensures WholeRecord(projection) ==> r == Some(record)
    ensures !WholeRecord(projection) ==>
      (r.None? <==> VALUES_MAP in record && !record[VALUES_MAP].JObj?)
    ensures !WholeRecord(projection) && r.Some? ==>
      r.value.Keys == record.Keys * {NAME, VALUES_MAP} &&
      (NAME in record ==> r.value[NAME] == record[NAME]) &&
      (VALUES_MAP in record ==>
        r.value[VALUES_MAP].JObj? &&
        r.value[VALUES_MAP].fields.Keys == record[VALUES_MAP].fields.Keys * Elements(projection.value) &&
        forall k :: k in r.value[VALUES_MAP].fields ==> r.value[VALUES_MAP].fields[k] == record[VALUES_MAP].fields[k])
  {
    if WholeRecord(projection) then Some(record)
    else if VALUES_MAP in record && !record[VALUES_MAP].JObj? then None
    else
      var fields := Elements(projection.value);
      Some(map k | k in record && (k == NAME || k == VALUES_MAP) ::
        if k == VALUES_MAP then JObj(KeepKeys(record[k].fields, fields)) else record[k])
  }

  /** Projecting a projected record again changes nothing. */
  lemma ProjectedIdempotent(projection: Option<seq<string>>, record: Object)
    requires Projected(projection, record).Some?
    ensures Projected(projection, Projected(projection, record).value) == Projected(projection, record)
  {
    if !WholeRecord(projection) {
      var once := Projected(projection, record).value;
      var twice := Projected(projection, once).value;
      assert twice.Keys == once.Keys;
      forall k | k in twice ensures twice[k] == once[k] {
        if k == VALUES_MAP {
          assert twice[k].fields.Keys == once[k].fields.Keys;
          assert twice[k].fields == once[k].fields;
        }
      }
      assert twice == once;
    }
  }

  /**
   * `performProjectionForUserRequestedAttributes`: walks the record's keys,
   * keeping the name, filtering the values map in place and removing every
   * other key.
   */
  method PerformProjection(projection: Option<seq<string>>, record: Object) returns (r: Option<Object>)
    ensures r == Projected(projection, record)
  {
    if WholeRecord(projection) {
      return Some(record);
    }
    var fieldsMap: set<string> := {};
    var i := 0;
    while i < |projection.value|
      invariant 0 <= i <= |projection.value|
      invariant fieldsMap == set j | 0 <= j < i :: projection.value[j]
    {
      fieldsMap := fieldsMap + {projection.value[i]};
      i := i + 1;
    }
    assert fieldsMap == Elements(projection.value) by {
      forall f | f in projection.value ensures f in fieldsMap {
        var j :| 0 <= j < |projection.value| && projection.value[j] == f;
      }
    }
    var out := record;
    var keys := record.Keys;
    while keys != {}
      invariant keys <= record.Keys
      invariant forall k :: k in out <==> k in record && (k in keys || k == NAME || k == VALUES_MAP)
      invariant forall k :: k in out && (k != VALUES_MAP || k in keys) ==> out[k] == record[k]
      invariant VALUES_MAP in out && VALUES_MAP !in keys ==>
        record[VALUES_MAP].JObj? && out[VALUES_MAP] == JObj(KeepKeys(record[VALUES_MAP].fields, fieldsMap))
      decreases keys
    {
      var key :| key in keys;
      if key == NAME {
      } else if key == VALUES_MAP {
        if !out[key].JObj? {
          return None;
        }
        var valuesMap := FilterValuesMap(out[key].fields, fieldsMap);
        out := out[key := JObj(valuesMap)];
      } else {
        out := out - {key};
      }
      keys := keys - {key};
    }
    assert out == Projected(projection, record).value by {
      var p := Projected(projection, record).value;
      assert out.Keys == p.Keys;
      forall k | k in out ensures out[k] == p[k] {
      }
    }
    r := Some(out);
  }

  /** The inner loop: removes through the iterator every values-map key not in the projection. */
  method FilterValuesMap(valuesMap: Object, fieldsMap: set<string>) returns (r: Object)
    ensures r == KeepKeys(valuesMap, fieldsMap)
  {
    r := valuesMap;
    var keys := valuesMap.Keys;
    while keys != {}
      invariant keys <= valuesMap.Keys
      invariant forall k :: k in r <==> k in valuesMap && (k in keys || k in fieldsMap)
      invariant forall k :: k in r ==> r[k] == valuesMap[k]
      decreases keys
    {
      var valKey :| valKey in keys;
      if valKey !in fieldsMap {
        r := r - {valKey};
      }
      keys := keys - {valKey};
    }
  }

  // ---------------------------------------------------------------------
  // Fields mentioned in a query: the matches of ~\w+(\.\w+)*

  /** `\w`: a letter, a digit or '_'. */
  predicate IsWordChar(c: char)
  {
    'a' <= c <= 'z' || 'A' <= c <= 'Z' || '0' <= c <= '9' || c == '_'
  }

  /** A string in the language \w+(\.\w+)*: word characters with single dots between them. */
  predicate IsPath(f: string)
  {
    |f| > 0 && forall i :: 0 <= i < |f| ==> PathChar(f, i)
  }

  /** Position `i` of `f` holds a word character, or a dot between two word characters. */
  predicate PathChar(f: string, i: int)
    requires 0 <= i < |f|
  {
    IsWordChar(f[i]) || (f[i] == '.' && 0 < i < |f| - 1 && IsWordChar(f[i - 1]) && IsWordChar(f[i + 1]))
  }

  /** The number of word characters at the start of `s`. */
  function WordRun(s: string): (n: nat)
    ensures n <= |s|
    ensures forall i :: 0 <= i < n ==> IsWordChar(s[i])
    ensures n < |s| ==> !IsWordChar(s[n])
  {
    if |s| > 0 && IsWordChar(s[0]) then 1 + WordRun(s[1..]) else 0
  }

  /**
   * The length of the longest prefix of `s` in \w+(\.\w+)*, 0 when `s` does
   * not start with a word character: what the greedy match consumes after
   * the '~'.
   */
  function PathLength(s: string): (n: nat)
    ensures n <= |s|
    ensures n > 0 <==> |s| > 0 && IsWordChar(s[0])
    ensures 0 < n < |s| ==> !IsWordChar(s[n]) && !(s[n] == '.' && n + 1 < |s| && IsWordChar(s[n + 1]))
    decreases |s|
  {
    var w := WordRun(s);
    if w == 0 then 0
    else if w + 1 < |s| && s[w] == '.' && IsWordChar(s[w + 1]) then
      w + 1 + PathLength(s[w + 1..])
    else w
  }

  /** What the greedy match consumes is in the language. */
  lemma {:induction false} PathLengthIsPath(s: string)
    requires PathLength(s) > 0
    ensures IsPath(s[..PathLength(s)])
    decreases |s|
  {
    var w := WordRun(s);
    if w + 1 < |s| && s[w] == '.' && IsWordChar(s[w + 1]) {
      var t := s[w + 1..];
      assert t[0] == s[w + 1];
      PathLengthDotted(s, w);
      PathLengthIsPath(t);
      DottedPath(s, w, PathLength(t), PathLength(s));
    } else {
      PathLengthWord(s, w);
      WordsArePath(s[..PathLength(s)]);
    }
  }

  /** A word run followed by a dot and a word character continues the match past the dot. */
  lemma PathLengthDotted(s: string, w: nat)
    requires w == WordRun(s) && w > 0 && w + 1 < |s| && s[w] == '.' && IsWordChar(s[w + 1])
    ensures PathLength(s) == w + 1 + PathLength(s[w + 1..])
  {
  }

  /** Otherwise the match is the word run alone. */
  lemma PathLengthWord(s: string, w: nat)
    requires w == WordRun(s)
    requires !(w + 1 < |s| && s[w] == '.' && IsWordChar(s[w + 1]))
    ensures PathLength(s) == w
  {
  }

  /** A run of word characters is a path. */
  lemma WordsArePath(a: string)
    requires |a| > 0 && forall i :: 0 <= i < |a| ==> IsWordChar(a[i])
    ensures IsPath(a)
  {
    assert forall i :: 0 <= i < |a| ==> PathChar(a, i);
  }

  /** A word run, a dot and a path make a path. */
  lemma DottedPath(s: string, w: nat, m: nat, n: nat)
    requires 0 < w && n == w + 1 + m && n <= |s| && s[w] == '.'
    requires forall i :: 0 <= i < w ==> IsWordChar(s[i])
    requires IsPath(s[w + 1..][..m])
    ensures IsPath(s[..n])
  {
    PathJoin(s[..w], s[w + 1..][..m]);
    assert s[..n] == s[..w] + "." + s[w + 1..][..m];
  }

  /** Two paths joined by a dot form a path. */
  lemma PathJoin(a: string, b: string)
    requires |a| > 0 && forall i :: 0 <= i < |a| ==> IsWordChar(a[i])
    requires IsPath(b)
    ensures IsPath(a + "." + b)
  {
    var f := a + "." + b;
    forall i | 0 <= i < |f|
      ensures PathChar(f, i)
    {
      if i < |a| {
        assert f[i] == a[i];
      } else if i == |a| {
        assert f[i + 1] == b[0];
        assert PathChar(b, 0);
        assert f[i - 1] == a[|a| - 1];
      } else {
        var j := i - |a| - 1;
        assert f[i] == b[j];
        assert PathChar(b, j);
        if b[j] == '.' {
          assert f[i - 1] == b[j - 1];
          assert f[i + 1] == b[j + 1];
        }
      }
    }
  }

  /** `getFieldsFromQuery`: every match, left to right, without its '~'. */
  function FieldsFromQuery(query: string): (r: seq<string>)
    decreases |query|
  {
    if |query| == 0 then []
    else
      var n := MentionLength(query);
      if n > 0 then [query[1..1 + n]] + FieldsFromQuery(query[1 + n..])
      else FieldsFromQuery(query[1..])
  }

  /** The length of the field a '~' at the front of `query` mentions; 0 when there is none. */
  function MentionLength(query: string): (n: nat)
    ensures n > 0 ==> 1 + n <= |query|
    ensures n > 0 <==> |query| >= 2 && query[0] == '~' && IsWordChar(query[1])
  {
    if |query| >= 2 && query[0] == '~' && IsWordChar(query[1]) then PathLength(query[1..]) else 0
  }

  /** Every extracted field is a match of \w+(\.\w+)*. */
  lemma {:induction false} FieldsFromQueryArePaths(query: string)
    ensures forall i :: 0 <= i < |FieldsFromQuery(query)| ==> IsPath(FieldsFromQuery(query)[i])
    decreases |query|
  {
    if |query| == 0 {
    } else if MentionLength(query) > 0 {
      var n := PathLength(query[1..]);
      PathLengthIsPath(query[1..]);
      assert query[1..][..n] == query[1..1 + n];
      FieldsFromQueryArePaths(query[1 + n..]);
    } else {
      FieldsFromQueryArePaths(query[1..]);
    }
  }

  /** A path followed by anything that cannot extend it is matched whole. */
  lemma {:induction false} PathLengthOfPath(f: string, rest: string)
    requires IsPath(f)
    requires |rest| == 0 || (!IsWordChar(rest[0]) && rest[0] != '.')
    ensures PathLength(f + rest) == |f|
    decreases |f|
  {
    var s := f + rest;
    var d := FirstDot(f);
    if d < |f| {
      assert s[d + 1..] == f[d + 1..] + rest;
      WordRunOfPath(f, rest);
      DotInPath(f, d);
      assert s[d] == '.' && IsWordChar(s[d + 1]) by {
        assert s[d] == f[d] && s[d + 1] == f[d + 1];
      }
      PathLengthDotted(s, d);
      PathLengthOfPath(f[d + 1..], rest);
    } else {
      WordRunOfPath(f, rest);
      assert !(d + 1 < |s| && s[d] == '.') by {
        if |rest| > 0 {
          assert s[d] == rest[0];
        }
      }
      PathLengthWord(s, d);
    }
  }

  /** A dot in a path sits between word characters, and what follows it is a path again. */
  lemma DotInPath(f: string, d: nat)
    requires IsPath(f) && d < |f| && f[d] == '.'
    ensures 0 < d && d + 1 < |f| && IsWordChar(f[d + 1])
    ensures IsPath(f[d + 1..])
  {
    assert PathChar(f, d);
    var tail := f[d + 1..];
    forall i | 0 <= i < |tail|
      ensures PathChar(tail, i)
    {
      var j := d + 1 + i;
      assert tail[i] == f[j];
      assert PathChar(f, j);
      if f[j] == '.' {
        assert j != d + 1;
        assert tail[i - 1] == f[j - 1] && tail[i + 1] == f[j + 1];
      }
    }
  }

  /** The position of the first '.' of a path, or its length. */
  function FirstDot(f: string): (d: nat)
    ensures d <= |f|
    ensures forall i :: 0 <= i < d ==> f[i] != '.'
    ensures d < |f| ==> f[d] == '.'
  {
    if |f| == 0 || f[0] == '.' then 0 else 1 + FirstDot(f[1..])
  }

  /** In `f + rest`, the word run of a path stops at its first dot (or where `rest` begins). */
  lemma WordRunOfPath(f: string, rest: string)
    requires IsPath(f)
    requires |rest| == 0 || (!IsWordChar(rest[0]) && rest[0] != '.')
    ensures WordRun(f + rest) == FirstDot(f)
  {
    var s := f + rest;
    var d := FirstDot(f);
    forall i | 0 <= i < d ensures IsWordChar(s[i]) {
      assert s[i] == f[i] && PathChar(f, i);
    }
    if d < |f| {
      assert s[d] == f[d];
    } else if |rest| > 0 {
      assert s[d] == rest[0];
    }
  }

  /** The query a client writes to mention the fields `fs`: each as "~field ". */
  function QueryMentioning(fs: seq<string>): string
  {
    if |fs| == 0 then "" else "~" + fs[0] + " " + QueryMentioning(fs[1..])
  }

  /** The fields extracted from such a query are exactly `fs`, in order. */
  lemma {:induction false} FieldsFromQueryMentioning(fs: seq<string>)
    requires forall i :: 0 <= i < |fs| ==> IsPath(fs[i])
    ensures FieldsFromQuery(QueryMentioning(fs)) == fs
  {
    if |fs| > 0 {
      FieldsFromMention(fs[0], QueryMentioning(fs[1..]));
      FieldsFromQueryMentioning(fs[1..]);
    }
  }

  /** One "~field " at the front of a query contributes that field and nothing else. */
  lemma FieldsFromMention(f: string, rest: string)
    requires IsPath(f)
    ensures FieldsFromQuery("~" + f + " " + rest) == [f] + FieldsFromQuery(rest)
  {
    var tail := " " + rest;
    var q := "~" + f + " " + rest;
    assert q[1..] == f + tail;
    assert PathChar(f, 0);
    PathLengthOfPath(f, tail);
    assert f[0] == f[0];
    MentionAt(q, f, tail);
    SkipSpace(rest);
  }

  /** A '~' followed by a path and then something that cannot extend it. */
  lemma MentionAt(q: string, f: string, tail: string)
    requires |q| >= 2 && q[0] == '~' && q[1..] == f + tail
    requires |f| > 0 && IsWordChar(f[0])
    requires PathLength(f + tail) == |f|
    ensures FieldsFromQuery(q) == [f] + FieldsFromQuery(tail)
  {
    var n := MentionLength(q);
    assert n == |f| by {
      assert q[1..] == f + tail && q[1] == f[0];
    }
    assert q[1..1 + n] == f && q[1 + n..] == tail by {
      assert q[1..][..n] == f && q[1..][n..] == tail;
    }
    MatchAtFront(q, n);
  }

  /** A '~' followed by a word character starts a match. */
  lemma MatchAtFront(q: string, n: nat)
    requires n == MentionLength(q) && n > 0
    ensures FieldsFromQuery(q) == [q[1..1 + n]] + FieldsFromQuery(q[1 + n..])
  {
  }

  /** A leading space is skipped. */
  lemma SkipSpace(rest: string)
    ensures FieldsFromQuery(" " + rest) == FieldsFromQuery(rest)
  {
    assert (" " + rest)[1..] == rest;
  }

  /**
   * `getFieldsForQueryType`: the key for EQUALS/NEAR/WITHIN, the fields of
   * the query for QUERY/SELECT_NOTIFY, nothing otherwise. `None` stands for
   * the NullPointerException of matching a null query.
   */
  function FieldsForQueryType(operation: SelectOperation, key: Option<string>, query: Option<string>): (r: Option<seq<Option<string>>>)
    ensures operation in {EQUALS, NEAR, WITHIN} ==> r == Some([key])
    ensures operation in {SelectOperation.QUERY, SELECT_NOTIFY} ==>
      (r.None? <==> query.None?) &&
      (r.Some? ==>
        (|r.value| == |FieldsFromQuery(query.value)| &&
         forall i :: 0 <= i < |r.value| ==> r.value[i] == Some(FieldsFromQuery(query.value)[i])))
    ensures operation in {NOTIFICATION_STATUS, NOTIFICATION_STATUS_REPLY} ==> r == Some([])
  {
    match operation
    case EQUALS => Some([key])
    case NEAR => Some([key])
    case WITHIN => Some([key])
    case QUERY => if query.None? then None else Some(AsPresent(FieldsFromQuery(query.value)))
    case SELECT_NOTIFY => if query.None? then None else Some(AsPresent(FieldsFromQuery(query.value)))
    case _ => Some([])
  }

  function AsPresent(xs: seq<string>): (r: seq<Option<string>>)
    ensures |r| == |xs| && forall i :: 0 <= i < |xs| ==> r[i] == Some(xs[i])
  {
    seq(|xs|, i requires 0 <= i < |xs| => Some(xs[i]))
  }

  // ---------------------------------------------------------------------
  // Records returned to users

  /** The name a record carries, when `getString(NAME)` succeeds. */
  function NameOf(record: Object): Option<string>
  {
    match GetString(record, NAME)
    case Ok(name) => Some(name)
    case Err(_) => None
  }

  /** `extractGuidsFromRecords`: the names of the records, skipping those without one. */
  function ExtractGuids(records: seq<Object>): (r: set<string>)
    ensures forall i :: 0 <= i < |records| && NameOf(records[i]).Some? ==> NameOf(records[i]).value in r
    ensures forall g :: g in r ==> exists i :: 0 <= i < |records| && NameOf(records[i]) == Some(g)
  {
    set i | 0 <= i < |records| && NameOf(records[i]).Some? :: NameOf(records[i]).value
  }

  /**
   * One record of `filterAndMassageRecords`: `_GUID` holds the name, then
   * every non-internal entry of the values map is copied (overwriting
   * `_GUID` should the values map hold one). `None` when the name or the
   * values map cannot be read.
   */
  function Massage(record: Object, isInternalField: string -> bool): (r: Option<Object>)
    ensures r.Some? <==> NameOf(record).Some? && VALUES_MAP in record && record[VALUES_MAP].JObj?
    ensures r.Some? ==>
      var values := record[VALUES_MAP].fields;
      r.value.Keys == {GUID_KEY} + (set k | k in values && !isInternalField(k)) &&
      (forall k :: k in values && !isInternalField(k) ==> r.value[k] == values[k]) &&
      (!(GUID_KEY in values && !isInternalField(GUID_KEY)) ==> r.value[GUID_KEY] == JStr(NameOf(record).value))
  {
    match NameOf(record)
    case None => None
    case Some(name) =>
      if VALUES_MAP !in record || !record[VALUES_MAP].JObj? then None
      else
        var values := record[VALUES_MAP].fields;
        Some(map[GUID_KEY := JStr(name)] + map k | k in values && !isInternalField(k) :: values[k])
  }

  /** `filterAndMassageRecords`: the massaged records in order, unreadable ones dropped. */
  function FilterAndMassage(records: seq<Object>, isInternalField: string -> bool): (r: seq<Object>)
    ensures |r| <= |records|
  {
    if |records| == 0 then []
    else
      var init := FilterAndMassage(records[..|records| - 1], isInternalField);
      match Massage(records[|records| - 1], isInternalField)
      case Some(m) => init + [m]
      case None => init
  }

  /** The loop of `filterAndMassageRecords`, record by record. */
  method FilterAndMassageRecords(records: seq<Object>, isInternalField: string -> bool) returns (result: seq<Object>)
    ensures result == FilterAndMassage(records, isInternalField)
  {
    result := [];
    var i := 0;
    while i < |records|
      invariant 0 <= i <= |records|
      invariant result == FilterAndMassage(records[..i], isInternalField)
    {
      assert records[..i + 1][..i] == records[..i];
      var newRecord := Massage(records[i], isInternalField);
      if newRecord.Some? {
        result := result + [newRecord.value];
      }
      i := i + 1;
    }
    assert records[..i] == records;
  }

  /** Every readable record is kept: nothing is dropped unless its name or values map cannot be read. */
  lemma {:induction false} FilterAndMassageKeepsReadable(records: seq<Object>, isInternalField: string -> bool)
    requires forall i :: 0 <= i < |records| ==> Massage(records[i], isInternalField).Some?
    ensures |FilterAndMassage(records, isInternalField)| == |records|
  {
    if |records| > 0 {
      FilterAndMassageKeepsReadable(records[..|records| - 1], isInternalField);
    }
  }

  /**
   * The guid of every massaged record is one of the extracted guids, as
   * long as no values map holds a non-internal `_GUID` of its own.
   */
  lemma {:induction false} MassagedGuidsExtracted(records: seq<Object>, isInternalField: string -> bool)
    requires forall i :: 0 <= i < |records| && VALUES_MAP in records[i] && records[i][VALUES_MAP].JObj? ==>
      !(GUID_KEY in records[i][VALUES_MAP].fields && !isInternalField(GUID_KEY))
    ensures forall m: Object :: m in FilterAndMassage(records, isInternalField) ==>
      GUID_KEY in m && m[GUID_KEY].JStr? && m[GUID_KEY].s in ExtractGuids(records)
  {
    if |records| > 0 {
      var init := records[..|records| - 1];
      MassagedGuidsExtracted(init, isInternalField);
      forall m: Object | m in FilterAndMassage(records, isInternalField)
        ensures GUID_KEY in m && m[GUID_KEY].JStr? && m[GUID_KEY].s in ExtractGuids(records)
      {
        if m in FilterAndMassage(init, isInternalField) {
          var g := m[GUID_KEY].s;
          var i :| 0 <= i < |init| && NameOf(init[i]) == Some(g);
          assert records[i] == init[i];
        } else {
          assert NameOf(records[|records| - 1]).Some?;
        }
      }
    }
  }
}
