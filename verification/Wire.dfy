/**
 What the encoding of a bundle message says to a JSON reader, by the names the program uses.
 */
module Wire {
  import opened Common
  import opened Json
  import opened Messages
  import opened Reader
  import opened Fields
  import opened Bundle

  ghost predicate SaysBundle(v: Value, m: BundleMsg) {
    match m
    case Request(repo) => Says(v, [Field("Request"), Field("repo_id")], Str(repo))
    case Begin(repo, name, size) =>
      && Says(v, [Field("Start"), Field("repo_id")], Str(repo)) && Says(v, [Field("Start"), Field("file_name")], Str(name))
      && Says(v, [Field("Start"), Field("total_size")], Num(size))
    case Chunk(repo, idx, data) =>
      && Says(v, [Field("Chunk"), Field("repo_id")], Str(repo)) && Says(v, [Field("Chunk"), Field("chunk_idx")], Num(idx))
      && SaysOctets(v, [Field("Chunk"), Field("data")], data)
    case Done(repo) => Says(v, [Field("Done"), Field("repo_id")], Str(repo))
  }

  lemma FieldsUnique(m: BundleMsg)
    ensures UniqueKeys(FieldsJson(m).1)
  {
    var es := FieldsJson(m).1;
    forall i, j | 0 <= i < j < |es| ensures es[i].0 != es[j].0 {
      assert es[i].0[0] != es[j].0[0];
    }
  }

  /** A field of the body, found from the top. */
  lemma BodyField(tag: Bytes, es: seq<Entry>, i: nat)
    requires UniqueKeys(es) && i < |es|
    ensures Says(Obj([(tag, Obj(es))]), [Field(tag), Field(es[i].0)], es[i].1)
  {
    var top := [(tag, Obj(es))];
    FieldOf(Obj(top), [], top, 0);
    assert [] + [Field(tag)] == [Field(tag)];
    FieldOf(Obj(top), [Field(tag)], es, i);
    assert [Field(tag)] + [Field(es[i].0)] == [Field(tag), Field(es[i].0)];
  }

  lemma BodySaysBundle(m: BundleMsg)
    ensures SaysBundle(Obj([(FieldsJson(m).0, Obj(FieldsJson(m).1))]), m)
  {
    var (tag, es) := FieldsJson(m);
    FieldsUnique(m);
    BodyField(tag, es, 0);
    if m.Begin? || m.Chunk? {
      BodyField(tag, es, 1);
      BodyField(tag, es, 2);
    }
    if m.Chunk? { assert IsOctets(Octets(m.data), m.data); }
  }

  /** A JSON reader gets every field of a bundle message from its encoding, and nothing is left over. */
  lemma EncodingSays(m: BundleMsg)
    ensures exists v :: ReadValue(Encode(m)) == Got(v, "") && SaysBundle(v, m)
  {
    var v := Obj([(FieldsJson(m).0, Obj(FieldsJson(m).1))]);
    PrintedIsRead(v, "");
    assert Encode(m) + "" == Encode(m);
    BodySaysBundle(m);
  }
}
