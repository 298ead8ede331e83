/**
 * The catalog parser of the App component (`parseCsv`): trim the text, split
 * it into lines, take the first line as the header, and turn every later line
 * into an object keyed by the lower-cased header names, with `id` and `price`
 * read as numbers and every other column kept as text.
 */
module Catalog {
  import opened Wrappers
  import opened JsText
  import opened Types

  /** A field as the parser stores it: a number, `NaN`, or text. */
  datatype Value = Number(n: int) | NotANumber | Text(s: string)

  /** The object the row reducer fills: one entry per distinct lower-cased header name. */
  type Record = map<string, Value>

  predicate IsNumericKey(key: string) {
    key == "id" || key == "price"
  }

  /** The one key an assignment cannot create: `__proto__` names the prototype accessor of every object. */
  const ProtoKey: string := "__proto__"

  /**
   * Whether assigning a cell under `key` creates an own property. Assigning a
   * string or a number to `obj["__proto__"]` runs the prototype setter, which
   * ignores anything that is not an object, so nothing is stored.
   */
  predicate Stored(key: string) {
    key != ProtoKey
  }

  /** The value stored under `key` for the trimmed cell text `text`. */
  function FieldValue(key: string, text: string): Value {
    if IsNumericKey(key) then
      match ParseNumber(text)
      case Some(n) => Number(n)
      case None => NotANumber
    else Text(text)
  }

  /** `.map(h => h.trim())`. */
  function TrimAll(xs: seq<string>): (r: seq<string>)
    ensures |r| == |xs|
    ensures forall i :: 0 <= i < |xs| ==> r[i] == Trim(xs[i])
  {
    if xs == [] then [] else [Trim(xs[0])] + TrimAll(xs[1..])
  }

  /** The header names: the first line split on commas, each trimmed. */
  function HeaderNames(line: string): seq<string> {
    TrimAll(Split(line, ','))
  }

  /** The lines of the catalog text: trimmed, then split on line feeds. */
  function Lines(csv: string): (r: seq<string>)
    ensures |r| == Count(Trim(csv), '\n') + 1
  {
    Split(Trim(csv), '\n')
  }

  /** No later column has the same lower-cased name as column `j`. */
  predicate LastWithKey(headers: seq<string>, j: int)
    requires 0 <= j < |headers|
  {
    forall k :: j < k < |headers| ==> Lower(headers[k]) != Lower(headers[j])
  }

  /**
   * The reducer over the header names for one row: each column stores its
   * trimmed cell under its lower-cased name, so a later column with the same
   * name overwrites an earlier one; cells past the last header are unread.
   * The keys are exactly the lower-cased header names other than `__proto__`;
   * `LastWins` says which cell each key holds.
   */
  function BuildRecord(headers: seq<string>, values: seq<string>): (r: Record)
    requires |headers| <= |values|
    ensures forall j :: 0 <= j < |headers| && Stored(Lower(headers[j])) ==> Lower(headers[j]) in r
    ensures forall k :: k in r ==> Stored(k) && exists j :: 0 <= j < |headers| && Lower(headers[j]) == k
    decreases |headers|
  {
    if headers == [] then map[]
    else
      var n := |headers| - 1;
      var prev := BuildRecord(headers[..n], values);
      var key := Lower(headers[n]);
      var r := if Stored(key) then prev[key := FieldValue(key, Trim(values[n]))] else prev;
      assert forall j :: 0 <= j < |headers| && Stored(Lower(headers[j])) ==> Lower(headers[j]) in r by {
        forall j | 0 <= j < n && Stored(Lower(headers[j])) ensures Lower(headers[j]) in prev {
          assert headers[..n][j] == headers[j];
        }
      }
      assert forall k :: k in r ==> Stored(k) && exists j :: 0 <= j < |headers| && Lower(headers[j]) == k by {
        forall k | k in prev ensures exists j :: 0 <= j < |headers| && Lower(headers[j]) == k {
          var j :| 0 <= j < n && Lower(headers[..n][j]) == k;
          assert headers[..n][j] == headers[j];
        }
      }
      r
  }

  /**
   * The reducer as the source runs it: one pass over the header names,
   * storing each trimmed cell into the accumulator object.
   */
  method FillRecord(headers: seq<string>, values: seq<string>) returns (obj: Record)
    requires |headers| <= |values|
    ensures obj == BuildRecord(headers, values)
  {
    obj := map[];
    for index := 0 to |headers|
      invariant obj == BuildRecord(headers[..index], values)
    {
      assert headers[..index + 1][..index] == headers[..index];
      var key := Lower(headers[index]);
      var value := Trim(values[index]);
      if !Stored(key) {
        // the prototype setter ignores the cell: the object is unchanged
      } else if IsNumericKey(key) {
        match ParseNumber(value)
        case Some(n) => obj := obj[key := Number(n)];
        case None => obj := obj[key := NotANumber];
      } else {
        obj := obj[key := Text(value)];
      }
    }
    assert headers[..|headers|] == headers;
  }

  /** Dropping the last column keeps a column that was the last with its key the last with it. */
  lemma LastWithKeyPrefix(headers: seq<string>, j: nat)
    requires j < |headers| - 1 && LastWithKey(headers, j)
    ensures LastWithKey(headers[..|headers| - 1], j)
  {
    var p := headers[..|headers| - 1];
    forall k | j < k < |p| ensures Lower(p[k]) != Lower(p[j]) {
      assert p[k] == headers[k] && p[j] == headers[j];
    }
  }

  /**
   * The record of all the columns is the record of all but the last, with the
   * last column's cell stored unless its key is `__proto__`.
   */
  lemma BuildRecordLast(headers: seq<string>, values: seq<string>)
    requires 0 < |headers| <= |values|
    ensures var n := |headers| - 1; var key := Lower(headers[n]);
      BuildRecord(headers, values)
      == if Stored(key) then BuildRecord(headers[..n], values)[key := FieldValue(key, Trim(values[n]))]
         else BuildRecord(headers[..n], values)
  {
  }

  /** Storing under one key leaves what another key holds alone. */
  lemma UpdateOtherKey(m: Record, stored: string, v: Value, key: string)
    requires key in m && key != stored
    ensures key in m[stored := v] && m[stored := v][key] == m[key]
  {
  }

  /** Column `j`'s key is in the record exactly when it is not `__proto__`. */
  lemma KeyStored(headers: seq<string>, values: seq<string>, j: nat)
    requires |headers| <= |values| && j < |headers|
    ensures Lower(headers[j]) in BuildRecord(headers, values) <==> Stored(Lower(headers[j]))
  {
  }

  /**
   * The key of column `j`, when no later column shares it, holds column `j`'s
   * cell, unless that key is `__proto__`, which is never stored.
   */
  lemma {:induction false} LastWins(headers: seq<string>, values: seq<string>, j: nat)
    requires |headers| <= |values| && j < |headers| && LastWithKey(headers, j)
    ensures Stored(Lower(headers[j])) ==>
      && Lower(headers[j]) in BuildRecord(headers, values)
      && BuildRecord(headers, values)[Lower(headers[j])] == FieldValue(Lower(headers[j]), Trim(values[j]))
    decreases |headers|
  {
    var n := |headers| - 1;
    var key := Lower(headers[j]);
    if Stored(key) {
      BuildRecordLast(headers, values);
      if j < n {
        var p := headers[..n];
        assert p[j] == headers[j];
        LastWithKeyPrefix(headers, j);
        LastWins(p, values, j);
        var prev := BuildRecord(p, values);
        var last := Lower(headers[n]);
        assert last != key;
        if Stored(last) {
          UpdateOtherKey(prev, last, FieldValue(last, Trim(values[n])), key);
        }
      }
    }
  }

  /**
   * The row mapping: one record per data line, in order. A line with fewer
   * cells than there are header names makes `values[index].trim()` throw,
   * which is `None` here.
   */
  function ParseRows(headers: seq<string>, rows: seq<string>): Option<seq<Record>> {
    if rows == [] then Some([])
    else
      var values := Split(rows[0], ',');
      if |values| < |headers| then None
      else
        match ParseRows(headers, rows[1..])
        case None => None
        case Some(rest) => Some([BuildRecord(headers, values)] + rest)
  }

  /**
   * The row mapping succeeds exactly when every line has at least as many
   * cells as there are header names.
   */
  lemma {:induction false} ParseRowsSome(headers: seq<string>, rows: seq<string>)
    ensures ParseRows(headers, rows).Some? <==> forall i :: 0 <= i < |rows| ==> |headers| <= |Split(rows[i], ',')|
  {
    if rows != [] {
      var tail := rows[1..];
      ParseRowsSome(headers, tail);
      assert forall i :: 1 <= i < |rows| ==> rows[i] == tail[i - 1];
    }
  }

  /**
   * A successful row mapping gives one record per line, in order, each
   * built from that line's cells.
   */
  lemma {:induction false} ParseRowsValues(headers: seq<string>, rows: seq<string>)
    requires ParseRows(headers, rows).Some?
    ensures |ParseRows(headers, rows).value| == |rows|
    ensures forall i :: 0 <= i < |rows| ==>
      |headers| <= |Split(rows[i], ',')| && ParseRows(headers, rows).value[i] == BuildRecord(headers, Split(rows[i], ','))
  {
    if rows != [] {
      var tail := rows[1..];
      ParseRowsCons(headers, rows);
      ParseRowsValues(headers, tail);
      var out := ParseRows(headers, rows).value;
      var rest := ParseRows(headers, tail).value;
      forall i | 0 <= i < |rows|
        ensures |headers| <= |Split(rows[i], ',')| && out[i] == BuildRecord(headers, Split(rows[i], ','))
      {
        if i > 0 {
          assert rows[i] == tail[i - 1];
          assert out[i] == rest[i - 1];
        }
      }
    }
  }

  /** The header names of a catalog text: its first line, split and trimmed. */
  function Header(csv: string): seq<string> {
    HeaderNames(Lines(csv)[0])
  }

  /** The data lines of a catalog text: every line after the first. */
  function DataLines(csv: string): (r: seq<string>)
    ensures |r| == Count(Trim(csv), '\n')
  {
    Lines(csv)[1..]
  }

  /**
   * parseCsv: one record per line after the header, in input order, built
   * against the header names; `None` exactly when some data line is short.
   */
  function ParseCsv(csv: string): (r: Option<seq<Record>>)
    ensures r.Some? <==> forall i :: 0 <= i < |DataLines(csv)| ==> |Header(csv)| <= |Split(DataLines(csv)[i], ',')|
    ensures r.Some? ==> |r.value| == |DataLines(csv)|
    ensures r.Some? ==> forall i :: 0 <= i < |DataLines(csv)| ==>
      |Header(csv)| <= |Split(DataLines(csv)[i], ',')|
      && r.value[i] == BuildRecord(Header(csv), Split(DataLines(csv)[i], ','))
  {
    ParseRowsSome(Header(csv), DataLines(csv));
    var parsed := ParseRows(Header(csv), DataLines(csv));
    if parsed.Some? then
      ParseRowsValues(Header(csv), DataLines(csv));
      parsed
    else parsed
  }

  /** A data line with fewer cells than header names makes the whole parse fail. */
  lemma ShortLineFails(csv: string, i: nat)
    requires i < |DataLines(csv)| && |Split(DataLines(csv)[i], ',')| < |Header(csv)|
    ensures ParseCsv(csv).None?
  {
  }

  /** One record per data line, each built from that line, is exactly what the parse gives. */
  lemma ParsedRecords(csv: string, records: seq<Record>)
    requires |records| == |DataLines(csv)|
    requires forall j :: 0 <= j < |records| ==>
      |Header(csv)| <= |Split(DataLines(csv)[j], ',')| && records[j] == BuildRecord(Header(csv), Split(DataLines(csv)[j], ','))
    ensures ParseCsv(csv) == Some(records)
  {
    var r := ParseCsv(csv);
    assert r.Some?;
    assert r.value == records;
  }

  /** A single long-enough line parses to its record. */
  lemma ParseRowsSingle(headers: seq<string>, row: string)
    requires |headers| <= |Split(row, ',')|
    ensures ParseRows(headers, [row]) == Some([BuildRecord(headers, Split(row, ','))])
  {
    assert [row][1..] == [];
    assert [BuildRecord(headers, Split(row, ','))] + [] == [BuildRecord(headers, Split(row, ','))];
  }

  /** A parse of a non-empty list of lines is the first line's record before the rest. */
  lemma ParseRowsCons(headers: seq<string>, rows: seq<string>)
    requires rows != [] && ParseRows(headers, rows).Some?
    ensures ParseRows(headers, rows[1..]).Some?
    ensures ParseRows(headers, rows).value
      == [BuildRecord(headers, Split(rows[0], ','))] + ParseRows(headers, rows[1..]).value
  {
  }

  /** Parsing one more line appends that line's record. */
  lemma {:induction false} ParseRowsSnoc(headers: seq<string>, rows: seq<string>, row: string)
    requires ParseRows(headers, rows).Some? && |headers| <= |Split(row, ',')|
    ensures ParseRows(headers, rows + [row]) == Some(ParseRows(headers, rows).value + [BuildRecord(headers, Split(row, ','))])
  {
    if rows == [] {
      assert rows + [row] == [row];
      ParseRowsSingle(headers, row);
      assert ParseRows(headers, rows).value + [BuildRecord(headers, Split(row, ','))] == [BuildRecord(headers, Split(row, ','))];
    } else {
      var longer := rows + [row];
      var first := BuildRecord(headers, Split(rows[0], ','));
      var record := BuildRecord(headers, Split(row, ','));
      assert longer[0] == rows[0];
      assert longer[1..] == rows[1..] + [row];
      ParseRowsCons(headers, rows);
      var rest := ParseRows(headers, rows[1..]).value;
      ParseRowsSnoc(headers, rows[1..], row);
      assert ParseRows(headers, longer) == Some([first] + (rest + [record]));
      assert [first] + (rest + [record]) == ([first] + rest) + [record];
    }
  }

  /** The first `i + 1` lines are the first `i` lines and line `i`. */
  lemma PrefixSnoc(rows: seq<string>, i: nat)
    requires i < |rows|
    ensures rows[..i + 1] == rows[..i] + [rows[i]]
  {
  }

  /** Parsing the first `i + 1` lines extends the parse of the first `i` by line `i`'s record. */
  lemma ParsePrefixStep(headers: seq<string>, rows: seq<string>, i: nat, parsed: seq<Record>)
    requires i < |rows| && ParseRows(headers, rows[..i]) == Some(parsed)
    requires |headers| <= |Split(rows[i], ',')|
    ensures ParseRows(headers, rows[..i + 1]) == Some(parsed + [BuildRecord(headers, Split(rows[i], ','))])
  {
    PrefixSnoc(rows, i);
    ParseRowsSnoc(headers, rows[..i], rows[i]);
  }

  /**
   * parseCsv as the source runs it: a pass over the data lines, each filled
   * by the reducer; the first short line throws, which is `None` here.
   */
  method ParseCatalog(csv: string) returns (result: Option<seq<Record>>)
    ensures result == ParseCsv(csv)
  {
    var headers := Header(csv);
    var rows := DataLines(csv);
    var parsed: seq<Record> := [];
    for i := 0 to |rows|
      invariant ParseRows(headers, rows[..i]) == Some(parsed)
    {
      var values := Split(rows[i], ',');
      if |values| < |headers| {
        ShortLineFails(csv, i);
        return None;
      }
      var record := FillRecord(headers, values);
      ParsePrefixStep(headers, rows, i, parsed);
      parsed := parsed + [record];
    }
    assert rows[..|rows|] == rows;
    result := Some(parsed);
  }

  function ToProduct(r: Record): Option<Product> {
    if && "id" in r && r["id"].Number?
       && "name" in r && r["name"].Text?
       && "price" in r && r["price"].Number?
       && "description" in r && r["description"].Text?
       && "imageurl" in r && r["imageurl"].Text?
    then Some(Product(r["id"].n, r["name"].s, r["price"].n, r["description"].s, r["imageurl"].s))
    else None
  }

  // ---------------------------------------------------------------------
  // Properties of the row reducer

  /** Cells beyond the header count do not matter. */
  lemma {:induction false} ExtraCellsIgnored(headers: seq<string>, values: seq<string>)
    requires |headers| <= |values|
    ensures BuildRecord(headers, values) == BuildRecord(headers, values[..|headers|])
    decreases |headers|
  {
    if headers != [] {
      var n := |headers| - 1;
      ExtraCellsIgnored(headers[..n], values);
      ExtraCellsIgnored(headers[..n], values[..|headers|]);
      assert values[..|headers|][..n] == values[..n];
    }
  }

  predicate DistinctKeys(headers: seq<string>) {
    forall i, j :: 0 <= i < j < |headers| ==> Lower(headers[i]) != Lower(headers[j])
  }

  lemma DistinctLast(headers: seq<string>, j: nat)
    requires DistinctKeys(headers) && j < |headers|
    ensures LastWithKey(headers, j)
  {
    forall k | j < k < |headers| ensures Lower(headers[k]) != Lower(headers[j]) {
      assert Lower(headers[j]) != Lower(headers[k]);
    }
  }

  lemma PermutedDistinct(h1: seq<string>, h2: seq<string>, perm: seq<nat>)
    requires |h2| == |perm| && DistinctKeys(h1)
    requires forall i :: 0 <= i < |perm| ==> perm[i] < |h1|
    requires forall i, j :: 0 <= i < j < |perm| ==> perm[i] != perm[j]
    requires forall i :: 0 <= i < |h2| ==> Lower(h2[i]) == Lower(h1[perm[i]])
    ensures DistinctKeys(h2)
  {
    forall i, j | 0 <= i < j < |h2| ensures Lower(h2[i]) != Lower(h2[j]) {
      if perm[i] < perm[j] {
        assert Lower(h1[perm[i]]) != Lower(h1[perm[j]]);
      } else {
        assert Lower(h1[perm[j]]) != Lower(h1[perm[i]]);
      }
    }
  }

  /** Two columns with the same key and the same trimmed cell give that key the same value. */
  lemma SameCell(h1: seq<string>, v1: seq<string>, h2: seq<string>, v2: seq<string>, i: nat, j: nat)
    requires |h1| <= |v1| && |h2| <= |v2| && DistinctKeys(h1) && DistinctKeys(h2)
    requires i < |h2| && j < |h1| && Lower(h2[i]) == Lower(h1[j]) && Trim(v2[i]) == Trim(v1[j])
    ensures Lower(h1[j]) in BuildRecord(h2, v2) <==> Lower(h1[j]) in BuildRecord(h1, v1)
    ensures Lower(h1[j]) in BuildRecord(h1, v1) ==>
      BuildRecord(h2, v2)[Lower(h1[j])] == BuildRecord(h1, v1)[Lower(h1[j])]
  {
    DistinctLast(h2, i);
    DistinctLast(h1, j);
    KeyStored(h2, v2, i);
    KeyStored(h1, v1, j);
    LastWins(h2, v2, i);
    LastWins(h1, v1, j);
  }

  /** Records with the same keys and the same value under each key are equal. */
  lemma SameRecord(r1: Record, r2: Record)
    requires forall k :: k in r1 ==> k in r2 && r2[k] == r1[k]
    requires forall k :: k in r2 ==> k in r1
    ensures r2 == r1
  {
  }

  /** Every key of the first record is in the reordered one, with the same value. */
  lemma PermutedCells(h1: seq<string>, v1: seq<string>, h2: seq<string>, v2: seq<string>, perm: seq<nat>)
    requires |h2| == |perm| && |h1| <= |v1| && |h2| <= |v2|
    requires DistinctKeys(h1) && DistinctKeys(h2)
    requires forall i :: 0 <= i < |perm| ==> perm[i] < |h1|
    requires forall j :: 0 <= j < |h1| ==> j in perm
    requires forall i :: 0 <= i < |h2| ==> Lower(h2[i]) == Lower(h1[perm[i]]) && Trim(v2[i]) == Trim(v1[perm[i]])
    ensures forall k :: k in BuildRecord(h1, v1) ==>
      k in BuildRecord(h2, v2) && BuildRecord(h2, v2)[k] == BuildRecord(h1, v1)[k]
  {
    forall k | k in BuildRecord(h1, v1) ensures k in BuildRecord(h2, v2) && BuildRecord(h2, v2)[k] == BuildRecord(h1, v1)[k] {
      var j :| 0 <= j < |h1| && Lower(h1[j]) == k;
      assert j in perm;
      var i :| 0 <= i < |perm| && perm[i] == j;
      SameCell(h1, v1, h2, v2, i, j);
    }
  }

  /** Every key of the reordered record is a key of the first one. */
  lemma PermutedKeys(h1: seq<string>, v1: seq<string>, h2: seq<string>, v2: seq<string>, perm: seq<nat>)
    requires |h2| == |perm| && |h1| <= |v1| && |h2| <= |v2|
    requires forall i :: 0 <= i < |perm| ==> perm[i] < |h1|
    requires forall i :: 0 <= i < |h2| ==> Lower(h2[i]) == Lower(h1[perm[i]])
    ensures forall k :: k in BuildRecord(h2, v2) ==> k in BuildRecord(h1, v1)
  {
    forall k | k in BuildRecord(h2, v2) ensures k in BuildRecord(h1, v1) {
      var i :| 0 <= i < |h2| && Lower(h2[i]) == k;
      assert Stored(Lower(h1[perm[i]]));
      assert Lower(h1[perm[i]]) in BuildRecord(h1, v1);
    }
  }

  /**
   * Header names are matched without regard to column order or letter case:
   * reordering the columns consistently in the header and the row, or changing
   * the case of a header name, gives the same record.
   */
  lemma ColumnOrderIrrelevant(h1: seq<string>, v1: seq<string>, h2: seq<string>, v2: seq<string>, perm: seq<nat>)
    requires |h1| == |h2| == |perm| && |h1| <= |v1| && |h2| <= |v2|
    requires DistinctKeys(h1)
    requires forall i :: 0 <= i < |perm| ==> perm[i] < |h1|
    requires forall i, j :: 0 <= i < j < |perm| ==> perm[i] != perm[j]
    requires forall j :: 0 <= j < |h1| ==> j in perm
    requires forall i :: 0 <= i < |h2| ==> Lower(h2[i]) == Lower(h1[perm[i]]) && Trim(v2[i]) == Trim(v1[perm[i]])
    ensures BuildRecord(h2, v2) == BuildRecord(h1, v1)
  {
    PermutedDistinct(h1, h2, perm);
    PermutedCells(h1, v1, h2, v2, perm);
    PermutedKeys(h1, v1, h2, v2, perm);
    SameRecord(BuildRecord(h1, v1), BuildRecord(h2, v2));
  }

  // ---------------------------------------------------------------------
  // A catalog written in the header layout parses back to its products

  /** The five product fields, in the order the catalog text names them. */
  const FieldNames: seq<string> := ["id", "name", "price", "description", "imageurl"]

  /** A text field that survives the format: no comma, no line feed, no white space at its ends. */
  predicate PlainField(s: string) {
    ',' !in s && '\n' !in s && (s == [] || (!IsSpace(s[0]) && !IsSpace(s[|s| - 1])))
  }

  predicate PlainProduct(p: Product) {
    PlainField(p.name) && PlainField(p.description) && PlainField(p.imageurl)
  }

  predicate NoCapitals(s: string) {
    forall i :: 0 <= i < |s| ==> !('A' <= s[i] <= 'Z')
  }

  /** Header names a writer can use: non-empty, plain, without capitals and distinct. */
  predicate PlainHeader(names: seq<string>) {
    && names != []
    && (forall i, j :: 0 <= i < j < |names| ==> names[i] != names[j])
    && forall j :: 0 <= j < |names| ==> names[j] != [] && PlainField(names[j]) && NoCapitals(names[j]) && Stored(names[j])
  }

  function RowFields(p: Product): seq<string> {
    [DecimalString(p.id), p.name, DecimalString(p.price), p.description, p.imageurl]
  }

  function RowText(p: Product): string {
    Join(RowFields(p), ',')
  }

  /** The lines of a catalog: the header names joined by commas, then one row per product. */
  function CatalogLines(names: seq<string>, products: seq<Product>): seq<string> {
    [Join(names, ',')] + seq(|products|, i requires 0 <= i < |products| => RowText(products[i]))
  }

  function CatalogText(names: seq<string>, products: seq<Product>): string {
    Join(CatalogLines(names, products), '\n')
  }

  /** Trimming leaves a plain field as it is. */
  lemma PlainTrimmed(s: string)
    requires PlainField(s)
    ensures Trim(s) == s
  {
    TrimFixed(s);
  }

  lemma DecimalStringPlain(n: int)
    ensures PlainField(DecimalString(n))
  {
  }

  /** A string with no capital letters is its own lower case. */
  lemma LowerFixed(s: string)
    requires NoCapitals(s)
    ensures Lower(s) == s
  {
    LowerChars(s);
  }

  /** Each plain header name is its own key and its own trimmed text, and the keys are distinct. */
  lemma PlainHeaderKeys(names: seq<string>)
    requires PlainHeader(names)
    ensures forall j :: 0 <= j < |names| ==> Lower(names[j]) == names[j] && Trim(names[j]) == names[j]
    ensures DistinctKeys(names)
  {
    forall j | 0 <= j < |names| ensures Lower(names[j]) == names[j] && Trim(names[j]) == names[j] {
      LowerFixed(names[j]);
      PlainTrimmed(names[j]);
    }
  }

  /** A name of small letters only is plain, has no capitals and is not `__proto__`. */
  lemma SmallLetters(s: string)
    requires forall i :: 0 <= i < |s| ==> 'a' <= s[i] <= 'z'
    ensures PlainField(s) && NoCapitals(s) && Stored(s)
  {
    assert ProtoKey[0] == '_';
  }

  lemma FieldNamesPlain()
    ensures PlainHeader(FieldNames)
  {
    SmallLetters("id");
    SmallLetters("name");
    SmallLetters("price");
    SmallLetters("description");
    SmallLetters("imageurl");
    forall i, j | 0 <= i < j < |FieldNames| ensures FieldNames[i] != FieldNames[j] {
      assert |FieldNames[i]| != |FieldNames[j]|;
    }
  }

  /** The first character of a join is that of the first piece, when it has one. */
  lemma JoinFirst(parts: seq<string>, sep: char)
    requires parts != [] && parts[0] != []
    ensures Join(parts, sep) != [] && Join(parts, sep)[0] == parts[0][0]
  {
  }

  /** The last piece of a join of two or more pieces comes after the last separator. */
  lemma JoinLast(parts: seq<string>, sep: char)
    requires |parts| >= 2
    ensures Join(parts, sep) == Join(parts[..|parts| - 1], sep) + [sep] + parts[|parts| - 1]
  {
    var n := |parts| - 1;
    assert parts == parts[..n] + [parts[n]];
    JoinAppend(parts[..n], [parts[n]], sep);
  }

  /** The header line splits and trims back to the names. */
  lemma HeaderRoundTrip(names: seq<string>)
    requires PlainHeader(names)
    ensures HeaderNames(Join(names, ',')) == names
  {
    SplitJoin(names, ',');
    PlainHeaderKeys(names);
  }

  /** The header line holds no line feed and has no white space at its ends. */
  lemma HeaderLineEnds(names: seq<string>)
    requires PlainHeader(names)
    ensures '\n' !in Join(names, ',')
    ensures Join(names, ',') != [] && !IsSpace(Join(names, ',')[0]) && !IsSpace(Join(names, ',')[|Join(names, ',')| - 1])
  {
    JoinAvoids(names, ',', '\n');
    JoinFirst(names, ',');
    if |names| >= 2 {
      JoinLast(names, ',');
    }
  }

  lemma RowTextFields(p: Product)
    requires PlainProduct(p)
    ensures Split(RowText(p), ',') == RowFields(p)
    ensures '\n' !in RowText(p)
    ensures RowText(p) != [] && !IsSpace(RowText(p)[|RowText(p)| - 1])
  {
    var fields := RowFields(p);
    DecimalStringPlain(p.id);
    DecimalStringPlain(p.price);
    SplitJoin(fields, ',');
    JoinAvoids(fields, ',', '\n');
    JoinLast(fields, ',');
  }

  /** Under distinct header names each name holds the trimmed cell of its own column. */
  lemma CellOf(names: seq<string>, fields: seq<string>, j: nat)
    requires PlainHeader(names) && j < |names| <= |fields|
    ensures names[j] in BuildRecord(names, fields)
    ensures BuildRecord(names, fields)[names[j]] == FieldValue(names[j], Trim(fields[j]))
  {
    PlainHeaderKeys(names);
    DistinctLast(names, j);
    LastWins(names, fields, j);
  }

  lemma NumberCell(key: string, n: int)
    requires IsNumericKey(key)
    ensures FieldValue(key, Trim(DecimalString(n))) == Number(n)
  {
    PlainTrimmed(DecimalString(n));
    ParseDecimalString(n);
  }

  lemma TextCell(key: string, s: string)
    requires !IsNumericKey(key) && PlainField(s)
    ensures FieldValue(key, Trim(s)) == Text(s)
  {
    PlainTrimmed(s);
  }

  /** Each of the five header names holds the trimmed cell of its own column. */
  lemma RowCells(names: seq<string>, fields: seq<string>)
    requires PlainHeader(names) && |names| == 5 <= |fields|
    ensures forall j :: 0 <= j < 5 ==>
      names[j] in BuildRecord(names, fields) && BuildRecord(names, fields)[names[j]] == FieldValue(names[j], Trim(fields[j]))
  {
    forall j | 0 <= j < 5
      ensures names[j] in BuildRecord(names, fields) && BuildRecord(names, fields)[names[j]] == FieldValue(names[j], Trim(fields[j]))
    {
      CellOf(names, fields, j);
    }
  }

  /** A record holding the five fields with their kinds converts to exactly that product. */
  lemma ProductFields(r: Record, p: Product)
    requires "id" in r && r["id"] == Number(p.id)
    requires "name" in r && r["name"] == Text(p.name)
    requires "price" in r && r["price"] == Number(p.price)
    requires "description" in r && r["description"] == Text(p.description)
    requires "imageurl" in r && r["imageurl"] == Text(p.imageurl)
    ensures ToProduct(r) == Some(p)
  {
  }

  /** A record holding each of a product's row cells under its field name converts to exactly that product. */
  lemma CellsProduct(r: Record, names: seq<string>, p: Product)
    requires |names| == 5
    requires names[0] == "id" && names[1] == "name" && names[2] == "price"
    requires names[3] == "description" && names[4] == "imageurl"
    requires PlainProduct(p)
    requires forall j :: 0 <= j < 5 ==> names[j] in r && r[names[j]] == FieldValue(names[j], Trim(RowFields(p)[j]))
    ensures ToProduct(r) == Some(p)
  {
    NumberCell("id", p.id);
    TextCell("name", p.name);
    NumberCell("price", p.price);
    TextCell("description", p.description);
    TextCell("imageurl", p.imageurl);
    assert r["id"] == FieldValue(names[0], Trim(RowFields(p)[0]));
    assert r["name"] == FieldValue(names[1], Trim(RowFields(p)[1]));
    assert r["price"] == FieldValue(names[2], Trim(RowFields(p)[2]));
    assert r["description"] == FieldValue(names[3], Trim(RowFields(p)[3]));
    assert r["imageurl"] == FieldValue(names[4], Trim(RowFields(p)[4]));
    ProductFields(r, p);
  }

  /** The record of a row written under the five field names converts to exactly its product. */
  lemma RowRecord(names: seq<string>, p: Product)
    requires PlainHeader(names) && |names| == 5
    requires names[0] == "id" && names[1] == "name" && names[2] == "price"
    requires names[3] == "description" && names[4] == "imageurl"
    requires PlainProduct(p)
    ensures ToProduct(BuildRecord(names, RowFields(p))) == Some(p)
  {
    RowCells(names, RowFields(p));
    CellsProduct(BuildRecord(names, RowFields(p)), names, p);
  }

  /** No line of a catalog holds a line feed. */
  lemma CatalogLinesPlain(names: seq<string>, products: seq<Product>)
    requires PlainHeader(names)
    requires forall i :: 0 <= i < |products| ==> PlainProduct(products[i])
    ensures forall i :: 0 <= i < |CatalogLines(names, products)| ==> '\n' !in CatalogLines(names, products)[i]
  {
    var lines := CatalogLines(names, products);
    HeaderLineEnds(names);
    forall i | 0 <= i < |lines| ensures '\n' !in lines[i] {
      if i > 0 {
        RowTextFields(products[i - 1]);
      }
    }
  }

  /** A catalog text has no white space at either end. */
  lemma CatalogTextEnds(names: seq<string>, products: seq<Product>)
    requires PlainHeader(names)
    requires forall i :: 0 <= i < |products| ==> PlainProduct(products[i])
    ensures var text := CatalogText(names, products); text != [] && !IsSpace(text[0]) && !IsSpace(text[|text| - 1])
  {
    var lines := CatalogLines(names, products);
    var text := Join(lines, '\n');
    HeaderLineEnds(names);
    JoinFirst(lines, '\n');
    if |lines| > 1 {
      JoinLast(lines, '\n');
      RowTextFields(products[|products| - 1]);
    }
  }

  /** Splitting a catalog text at line feeds, after trimming, gives back its lines. */
  lemma CatalogTextLines(names: seq<string>, products: seq<Product>)
    requires PlainHeader(names)
    requires forall i :: 0 <= i < |products| ==> PlainProduct(products[i])
    ensures Lines(CatalogText(names, products)) == CatalogLines(names, products)
  {
    CatalogTextEnds(names, products);
    TrimFixed(CatalogText(names, products));
    CatalogLinesPlain(names, products);
    SplitJoin(CatalogLines(names, products), '\n');
  }

  /** A catalog text parses to one record per product, each built from that product's row. */
  lemma CatalogParses(names: seq<string>, products: seq<Product>)
    requires PlainHeader(names) && |names| == 5
    requires forall i :: 0 <= i < |products| ==> PlainProduct(products[i])
    ensures ParseCsv(CatalogText(names, products)).Some?
    ensures |ParseCsv(CatalogText(names, products)).value| == |products|
    ensures forall i :: 0 <= i < |products| ==>
      ParseCsv(CatalogText(names, products)).value[i] == BuildRecord(names, RowFields(products[i]))
  {
    var text := CatalogText(names, products);
    CatalogTextLines(names, products);
    HeaderRoundTrip(names);
    assert Header(text) == names;
    forall i | 0 <= i < |products| ensures Split(DataLines(text)[i], ',') == RowFields(products[i]) {
      RowTextFields(products[i]);
    }
  }

  /** Round trip for any header naming the five fields in order. */
  lemma RoundTripWith(names: seq<string>, products: seq<Product>)
    requires PlainHeader(names) && |names| == 5
    requires names[0] == "id" && names[1] == "name" && names[2] == "price"
    requires names[3] == "description" && names[4] == "imageurl"
    requires forall i :: 0 <= i < |products| ==> PlainProduct(products[i])
    ensures ParseCsv(CatalogText(names, products)).Some?
    ensures |ParseCsv(CatalogText(names, products)).value| == |products|
    ensures forall i :: 0 <= i < |products| ==>
      ToProduct(ParseCsv(CatalogText(names, products)).value[i]) == Some(products[i])
  {
    CatalogParses(names, products);
    forall i | 0 <= i < |products|
      ensures ToProduct(ParseCsv(CatalogText(names, products)).value[i]) == Some(products[i])
    {
      RowRecord(names, products[i]);
    }
  }

  /**
   * Round trip: writing products under the five field names, one per line,
   * and parsing the text gives one record per product, in order, each
   * converting back to its product.
   */
  lemma CatalogRoundTrip(products: seq<Product>)
    requires forall i :: 0 <= i < |products| ==> PlainProduct(products[i])
    ensures ParseCsv(CatalogText(FieldNames, products)).Some?
    ensures |ParseCsv(CatalogText(FieldNames, products)).value| == |products|
    ensures forall i :: 0 <= i < |products| ==>
      ToProduct(ParseCsv(CatalogText(FieldNames, products)).value[i]) == Some(products[i])
  {
    FieldNamesPlain();
    RoundTripWith(FieldNames, products);
  }
}
