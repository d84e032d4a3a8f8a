/** JSON values and the recursive renaming of component ids inside them
    (agent/dsl_migration.py). */
module JsonRewrite {
  import opened Basics
  import opened VariableRefs

  datatype Json =
    | Null
    | Bool(flag: bool)
    | Num(number: real)
    | Str(text: string)
    | Arr(items: seq<Json>)
    | Obj(fields: map<string, Json>)

  /** A text that is a component id is renamed as a whole; any other text has its
      references renamed. */
  function RewriteText(m: Renaming, text: string): string {
    if text in m then m[text] else Sub(m, text)
  }

  function Rewrite(m: Renaming, v: Json): Json {
    match v
    case Str(text) => Str(RewriteText(m, text))
    case Arr(items) => Arr(seq(|items|, i requires 0 <= i < |items| => Rewrite(m, items[i])))
    case Obj(fields) => Obj(map k | k in fields :: Rewrite(m, fields[k]))
    case _ => v
  }

  // ------------------------------------------------------------------ what stays as it is

  /** Whether the renaming leaves every component the text names as it is. */
  ghost predicate Settled(m: Renaming, text: string) {
    if text in m then m[text] == text
    else forall i | 0 <= i < |Refs(text)| :: Lookup(m, Refs(text)[i]) == Refs(text)[i]
  }

  ghost predicate AllSettled(m: Renaming, v: Json) {
    match v
    case Str(text) => Settled(m, text)
    case Arr(items) => forall i | 0 <= i < |items| :: AllSettled(m, items[i])
    case Obj(fields) => forall k | k in fields :: AllSettled(m, fields[k])
    case _ => true
  }

  lemma {:induction false} SubSettled(m: Renaming, s: string)
    requires forall i | 0 <= i < |Refs(s)| :: Lookup(m, Refs(s)[i]) == Refs(s)[i]
    ensures Sub(m, s) == s
    decreases |s|
  {
    hide MatchHead;
    if s != "" {
      match MatchHead(s)
      case None =>
        assert Refs(s) == Refs(s[1..]);
        SubSettled(m, s[1..]);
      case Some(r) =>
        MatchBounds(s);
        var rest := Refs(s[r.close..]);
        assert Refs(s) == [IdOf(s, r)] + rest;
        assert Lookup(m, Refs(s)[0]) == Refs(s)[0];
        assert forall i | 0 <= i < |rest| :: Lookup(m, Refs(s)[i + 1]) == Refs(s)[i + 1] == rest[i];
        SubSettled(m, s[r.close..]);
        Rebuild(s, r.open, r.id, r.close);
    }
  }

  lemma TextUntouchedIff(m: Renaming, text: string)
    requires KeepsIdShape(m)
    ensures RewriteText(m, text) == text <==> Settled(m, text)
  {
    if text !in m {
      RefsRenamed(m, text);
      if Sub(m, text) == text {
        forall i | 0 <= i < |Refs(text)| ensures Lookup(m, Refs(text)[i]) == Refs(text)[i] {
          assert RenamedAll(m, Refs(text))[i] == Lookup(m, Refs(text)[i]);
        }
      }
      if Settled(m, text) { SubSettled(m, text); }
    }
  }

  /** A value is left alone exactly when no text in it names a component that is renamed,
      either outright or in a reference. */
  lemma {:induction false} ValueUntouchedIff(m: Renaming, v: Json)
    requires KeepsIdShape(m)
    ensures Rewrite(m, v) == v <==> AllSettled(m, v)
  {
    match v
    case Str(text) => TextUntouchedIff(m, text);
    case Arr(items) =>
      forall i | 0 <= i < |items| ensures Rewrite(m, items[i]) == items[i] <==> AllSettled(m, items[i]) {
        ValueUntouchedIff(m, items[i]);
      }
      var after := Rewrite(m, v).items;
      assert forall i | 0 <= i < |items| :: after[i] == Rewrite(m, items[i]);
      assert after == items <==> forall i | 0 <= i < |items| :: after[i] == items[i];
    case Obj(fields) =>
      forall k | k in fields ensures Rewrite(m, fields[k]) == fields[k] <==> AllSettled(m, fields[k]) {
        ValueUntouchedIff(m, fields[k]);
      }
      var after := Rewrite(m, v).fields;
      assert forall k | k in fields :: after[k] == Rewrite(m, fields[k]);
      assert after == fields <==> forall k | k in fields :: after[k] == fields[k];
    case _ =>
  }

  lemma {:induction false} RewriteIdentity(m: Renaming, v: Json)
    requires Identity(m)
    ensures Rewrite(m, v) == v
  {
    match v
    case Str(text) => SubIdentity(m, text);
    case Arr(items) =>
      forall i | 0 <= i < |items| ensures Rewrite(m, items[i]) == items[i] { RewriteIdentity(m, items[i]); }
    case Obj(fields) =>
      forall k | k in fields ensures Rewrite(m, fields[k]) == fields[k] { RewriteIdentity(m, fields[k]); }
    case _ =>
  }
}
