/**
 Both encoder objects driven by the same fields.
 */
module Twins {
  import opened Utf8
  import opened EncoderOps
  import opened JsonText
  import opened JsonRendering
  import opened JsonFragments
  import opened JsonEntry
  import opened MapEncoder
  import J = JsonEncoder
  import M = MapObjectEncoder

  /** Settings under which an entry has no members of its own. */
  function FieldsOnly(style: Style, lineEnding: Bytes): (cfg: Config) {
    Config(style, [], [], [], [], [], [], [], lineEnding, None, None, c => None)
  }

  lemma FieldsOnlyLine(style: Style, lineEnding: Bytes, ent: Entry, ops: seq<ObjOp>)
    ensures EntryOps(FieldsOnly(style, lineEnding), ent) == []
    ensures StackOps(FieldsOnly(style, lineEnding), ent) == []
    ensures EntryText(FieldsOnly(style, lineEnding), ent, ops) == ObjectText(style, ops) + lineEnding
  {
    var cfg := FieldsOnly(style, lineEnding);
    assert EntryOps(cfg, ent) == [] && [] + ops == ops;
    assert Fragment(style, [], !Emits(ops)) == [];
    var text := [LBRACE] + Fragment(style, ops, true) + Closers(Opens(ops));
    assert text + [] == text;
  }

  /**
   The JSON encoder writes a line and the map encoder builds a map from the same fields. Reading
   the line, the last of equal keys winning, gives the map if and only if the fields' calls use
   valid UTF-8 in every key and in every string that is not overwritten.
   */
  method EncodeBoth(style: Style, lineEnding: Bytes, ent: Entry, fields: seq<Field>)
    returns (line: Bytes, m: map<Bytes, Data>)
    requires Good(style, FieldsOps(fields))
    ensures ReadsAsMap(line, lineEnding, m) <==> CleanCalls(style, FieldsOps(fields))
    ensures ReadValue(line).Some? && ReadValue(line).value.1 == lineEnding
  {
    hide FieldsOps, MapFieldsOps, ReadValue, FromJson, CleanCalls, EntryText, ObjectText, MapOf, Good;
    ghost var ops := FieldsOps(fields);
    GoodIsTrusted(style, lineEnding, ent, ops);
    FieldsOnlyLine(style, lineEnding, ent, ops);
    var enc := new J.Encoder(FieldsOnly(style, lineEnding));
    line := enc.EncodeEntry(ent, fields);
    assert [] + ops == ops;
    FieldTwinsAgree(style, fields);
    var twin := new M.Encoder(style);
    twin.AddFields(fields);
    m := twin.ReadOut(twin.fields, 0);
    assert twin.frames[0..] == twin.frames;
    M.StackBuildsMap(style, map[], MapFieldsOps(fields));
    LineAndObject(style, ops, lineEnding);
  }

  ghost predicate ReadsAsMap(line: Bytes, lineEnding: Bytes, m: map<Bytes, Data>) {
    var read := ReadValue(line);
    read.Some? && read.value.1 == lineEnding && FromJson(read.value.0) == DMap(m)
  }

  lemma GoodIsTrusted(style: Style, lineEnding: Bytes, ent: Entry, ops: seq<ObjOp>)
    requires Good(style, ops)
    ensures J.Trusted(FieldsOnly(style, lineEnding), ent, [], ops)
  {
    FieldsOnlyLine(style, lineEnding, ent, ops);
  }

  lemma LineAndObject(style: Style, ops: seq<ObjOp>, lineEnding: Bytes)
    requires Good(style, ops)
    ensures var (line, object_) := (ReadValue(ObjectText(style, ops) + lineEnding), ReadValue(ObjectText(style, ops)));
      && line.Some? && object_.Some? && line.value.1 == lineEnding
      && line.value.0 == object_.value.0
  {
    hide ReadValue, ObjectText, MembersOf;
    ObjectReads(style, ops, lineEnding);
    ObjectReads(style, ops, []);
    assert ObjectText(style, ops) + [] == ObjectText(style, ops);
  }
}
