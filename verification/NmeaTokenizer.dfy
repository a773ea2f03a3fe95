/** The field splitter of the debug NMEA parsers (SystemStatusNmeaBase, gps/core/SystemStatus.cpp). */
module NmeaTokenizer {
  import opened Wrappers

  const MIN_SIZE := 6
  const MAX_SIZE := 4096

  /** loc_nmea_is_debug (gps/utils/loc_nmea.h). */
  predicate IsDebug(text: string) {
    MIN_SIZE <= |text| <= MAX_SIZE && text[..4] == "$PQW"
  }

  function Find(s: string, c: char): (i: Option<nat>)
    ensures i.None? <==> c !in s
    ensures i.Some? ==> i.value < |s| && s[i.value] == c && forall k :: 0 <= k < i.value ==> s[k] != c
  {
    if s == "" then None
    else if s[0] == c then Some(0)
    else match Find(s[1..], c)
      case None => None
      case Some(i) => Some(i + 1)
  }

  /** The fields that end with a comma; what follows the last comma is dropped. */
  function Fields(s: string): seq<string>
    decreases |s|
  {
    match Find(s, ',')
    case None => []
    case Some(i) => [s[..i]] + Fields(s[i + 1..])
  }

  /** What follows the last comma. */
  function Rest(s: string): string
    decreases |s|
  {
    match Find(s, ',')
    case None => s
    case Some(i) => Rest(s[i + 1..])
  }

  function Parse(text: string): seq<string> {
    if !IsDebug(text) then []
    else match Find(text, '*')
      case None => []
      case Some(star) => Fields(text[star := ','])
  }

  class SystemStatusNmeaBase {
    var mField: seq<string>

    constructor (text: string)
      ensures mField == Parse(text)
    {
      mField := [];
      new;
      if IsDebug(text) {
        var star := Find(text, '*');
        if star.Some? {
          mField := Tokenize(text[star.value := ',']);
        }
      }
    }

    static method Tokenize(text: string) returns (fields: seq<string>)
      ensures fields == Fields(text)
    {
      var parser := text;
      fields := [];
      while true
        invariant fields + Fields(parser) == Fields(text)
        decreases |parser|
      {
        var index := Find(parser, ',');
        if index.None? {
          break;
        }
        var str := parser[..index.value];
        ghost var rest := Fields(parser[index.value + 1..]);
        assert fields + ([str] + rest) == fields + [str] + rest;
        parser := parser[index.value + 1..];
        fields := fields + [str];
      }
    }
  }

  // ---------- Joining ----------

  /** Every field followed by a comma. */
  function Join(fields: seq<string>): string {
    if fields == [] then "" else fields[0] + [','] + Join(fields[1..])
  }

  /** The fields separated by commas, with a star in place of the last comma, and a checksum. */
  function Sentence(fields: seq<string>, checksum: string): string
    requires fields != []
  {
    var all := Join(fields);
    all[..|all| - 1] + "*" + checksum
  }

  lemma {:induction false} JoinEnds(fields: seq<string>)
    requires fields != []
    ensures var all := Join(fields); all != "" && all[|all| - 1] == ','
  {
    if |fields| > 1 { JoinEnds(fields[1..]); }
  }

  lemma {:induction false} JoinWithout(fields: seq<string>, c: char)
    requires c != ',' && forall f :: f in fields ==> c !in f
    ensures c !in Join(fields)
  {
    if fields != [] { JoinWithout(fields[1..], c); }
  }

  lemma FindAfter(a: string, c: char, b: string)
    requires c !in a
    ensures Find(a + [c] + b, c) == Some(|a|)
  {
    var s := a + [c] + b;
    assert s[|a|] == c;
    assert forall k :: 0 <= k < |a| ==> s[k] == a[k];
  }

  lemma {:induction false} FieldsOfJoin(fields: seq<string>, rest: string)
    requires forall f :: f in fields ==> ',' !in f
    requires ',' !in rest
    ensures Fields(Join(fields) + rest) == fields && Rest(Join(fields) + rest) == rest
  {
    if fields == [] {
      assert Join(fields) + rest == rest;
    } else {
      var f, tail := fields[0], fields[1..];
      var s := Join(fields) + rest;
      assert s == f + [','] + (Join(tail) + rest);
      FindAfter(f, ',', Join(tail) + rest);
      assert s[..|f|] == f && s[|f| + 1..] == Join(tail) + rest;
      FieldsOfJoin(tail, rest);
    }
  }

  lemma StarReplaced(fields: seq<string>, checksum: string)
    requires fields != [] && forall f :: f in fields ==> '*' !in f
    ensures var text := Sentence(fields, checksum);
            var star := Find(text, '*');
            star.Some? && text[star.value := ','] == Join(fields) + checksum
  {
    var all := Join(fields);
    JoinEnds(fields);
    JoinWithout(fields, '*');
    FindAfter(all[..|all| - 1], '*', checksum);
    StarForComma(all, checksum);
  }

  lemma StarForComma(all: string, checksum: string)
    requires all != "" && all[|all| - 1] == ','
    ensures (all[..|all| - 1] + "*" + checksum)[|all| - 1 := ','] == all + checksum
  {
  }

  /** Splitting a sentence gives back exactly its fields. */
  lemma ParseSentence(fields: seq<string>, checksum: string)
    requires fields != [] && forall f :: f in fields ==> ',' !in f && '*' !in f
    requires ',' !in checksum
    requires IsDebug(Sentence(fields, checksum))
    ensures Parse(Sentence(fields, checksum)) == fields
  {
    StarReplaced(fields, checksum);
    FieldsOfJoin(fields, checksum);
  }

  lemma JoinFirst(f: string, fields: seq<string>, rest: string)
    ensures Join([f] + fields) + rest == f + ([','] + (Join(fields) + rest))
  {
    assert ([f] + fields)[1..] == fields;
    assert f + [','] + Join(fields) + rest == f + ([','] + (Join(fields) + rest));
  }

  lemma SplitAt(s: string, i: nat)
    requires i < |s|
    ensures s == s[..i] + ([s[i]] + s[i + 1..])
  {
  }

  lemma FieldsSplit(s: string, i: nat)
    requires Find(s, ',') == Some(i)
    ensures Fields(s) == [s[..i]] + Fields(s[i + 1..]) && Rest(s) == Rest(s[i + 1..])
  {
  }

  lemma {:induction false} JoinOfFields(s: string)
    ensures Join(Fields(s)) + Rest(s) == s
    decreases |s|
  {
    match Find(s, ',')
    case None =>
      assert Join([]) + s == s;
    case Some(i) =>
      var f, tail := s[..i], s[i + 1..];
      JoinOfFields(tail);
      FieldsSplit(s, i);
      JoinFirst(f, Fields(tail), Rest(tail));
      SplitAt(s, i);
  }

  lemma {:induction false} NoCommas(s: string)
    ensures ',' !in Rest(s) && forall f :: f in Fields(s) ==> ',' !in f
    decreases |s|
  {
    match Find(s, ',')
    case None =>
    case Some(i) =>
      FieldsSplit(s, i);
      NoCommas(s[i + 1..]);
  }

  /** For every accepted text the fields and the dropped rest rebuild the text, the first star
    * replaced; no field holds a comma. */
  lemma ParseIsLossless(text: string)
    requires IsDebug(text) && '*' in text
    ensures var star := Find(text, '*').value;
            && Join(Parse(text)) + Rest(text[star := ',']) == text[star := ',']
            && ',' !in Rest(text[star := ','])
            && forall f :: f in Parse(text) ==> ',' !in f
    ensures Parse(text) != []
  {
    var star := Find(text, '*').value;
    var s := text[star := ','];
    JoinOfFields(s);
    NoCommas(s);
    assert s[star] == ',' && ',' in s;
  }

  /** There are fields exactly for a debug sentence of the right length with a star. */
  lemma ParseEmptyIff(text: string)
    ensures Parse(text) != [] <==> 6 <= |text| <= 4096 && text[..4] == "$PQW" && '*' in text
  {
    if IsDebug(text) && '*' in text { ParseIsLossless(text); }
  }
}
