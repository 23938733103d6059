/** Patching settings and reading them back: the laws the settings page relies on. */
module SettingsLens {
  import opened Wrappers
  import opened SettingsTable

  predicate Defined(patch: Patch, f: Field) {
    Known(f) in patch && patch[Known(f)].Some?
  }

  /** The rows a patch writes: its known fields that are defined. */
  function Writes(patch: Patch): (w: Rows)
    ensures forall f :: Defined(patch, f) ==> KeyOf(f) in w && w[KeyOf(f)] == patch[Known(f)].value
    ensures forall f :: KeyOf(f) in w ==> Defined(patch, f)
  {
    forall f, g | KeyOf(f) == KeyOf(g) ensures f == g { KeysDiffer(f, g); }
    map n | n in patch && n.Known? && patch[n].Some? :: KeyOf(n.field) := patch[n].value
  }

  function Write(rows: Rows, patch: Patch): Rows {
    rows + Writes(patch)
  }

  /** A field as the API shows it: the stored value unless missing or null, then the default. */
  function View(rows: Rows, f: Field): (v: Json)
    ensures !v.Null?
  {
    if KeyOf(f) in rows && !rows[KeyOf(f)].Null? then rows[KeyOf(f)] else DefaultOf(f)
  }

  predicate SameView(a: Rows, b: Rows) {
    forall f: Field :: View(a, f) == View(b, f)
  }

  /** Put-get: a patched field reads back what was put, unless that was null. */
  lemma PutGetIff(rows: Rows, patch: Patch, f: Field)
    requires Defined(patch, f)
    ensures View(Write(rows, patch), f) == patch[Known(f)].value <==> !patch[Known(f)].value.Null?
    ensures patch[Known(f)].value.Null? ==> View(Write(rows, patch), f) == DefaultOf(f)
  {
    var w := Writes(patch);
    assert KeyOf(f) in w;
  }

  /** A field that is not patched, or patched with undefined, keeps its value; so do the rows of
      every other section, and unknown names write nothing. */
  lemma PutFrame(rows: Rows, patch: Patch, f: Field, k: Key)
    ensures !Defined(patch, f) ==> View(Write(rows, patch), f) == View(rows, f)
    ensures (forall g: Field :: Defined(patch, g) ==> KeyOf(g) != k) ==>
              (k in Write(rows, patch) <==> k in rows) && (k in rows ==> Write(rows, patch)[k] == rows[k])
  {
    if !Defined(patch, f) { assert KeyOf(f) !in Writes(patch); }
    if k in Writes(patch) { var g := NamesWriter(patch, k); }
  }

  lemma NamesWriter(patch: Patch, k: Key) returns (f: Field)
    requires k in Writes(patch)
    ensures Defined(patch, f) && KeyOf(f) == k
  {
    var n :| n in patch && n.Known? && patch[n].Some? && KeyOf(n.field) == k;
    f := n.field;
  }

  /** A patch that puts the shown value of every field it names. */
  predicate Echoes(rows: Rows, patch: Patch) {
    forall f :: Defined(patch, f) ==> patch[Known(f)].value == View(rows, f)
  }

  predicate Stored(rows: Rows, f: Field) {
    KeyOf(f) in rows && !rows[KeyOf(f)].Null?
  }

  /** Get-put: putting back what was shown changes no shown value, and no row exactly when every
      field put back is stored with a value. */
  lemma GetPutIff(rows: Rows, patch: Patch)
    requires Echoes(rows, patch)
    ensures SameView(Write(rows, patch), rows)
    ensures Write(rows, patch) == rows <==> forall f :: Defined(patch, f) ==> Stored(rows, f)
  {
    EchoView(rows, patch);
    if forall f :: Defined(patch, f) ==> Stored(rows, f) {
      EchoRows(rows, patch);
    } else {
      var f :| Defined(patch, f) && !Stored(rows, f);
      assert KeyOf(f) in Writes(patch) && Write(rows, patch)[KeyOf(f)] == View(rows, f);
    }
  }

  lemma EchoView(rows: Rows, patch: Patch)
    requires Echoes(rows, patch)
    ensures SameView(Write(rows, patch), rows)
  {
    forall f: Field ensures View(Write(rows, patch), f) == View(rows, f) {
      if Defined(patch, f) { PutGetIff(rows, patch, f); } else { PutFrame(rows, patch, f, KeyOf(f)); }
    }
  }

  lemma EchoRows(rows: Rows, patch: Patch)
    requires Echoes(rows, patch) && forall f :: Defined(patch, f) ==> Stored(rows, f)
    ensures Write(rows, patch) == rows
  {
    forall k | k in Writes(patch) ensures k in rows && rows[k] == Writes(patch)[k] {
      var f := NamesWriter(patch, k);
      assert Stored(rows, f);
    }
  }

  /** The later of two patches on top of the earlier. */
  function Merge(p: Patch, q: Patch): (m: Patch)
    ensures forall f :: Defined(m, f) <==> Defined(p, f) || Defined(q, f)
    ensures forall f :: Defined(q, f) ==> Defined(m, f) && m[Known(f)] == q[Known(f)]
    ensures forall f :: Defined(p, f) && !Defined(q, f) ==> Defined(m, f) && m[Known(f)] == p[Known(f)]
  {
    p + map n | n in q && q[n].Some? :: q[n]
  }

  lemma RowsAssociative(a: Rows, b: Rows, c: Rows)
    ensures (a + b) + c == a + (b + c)
  {
  }

  /** Put-put: two patches in a row are their merge; what the second leaves undefined is the first's. */
  lemma PutPut(rows: Rows, p: Patch, q: Patch)
    ensures Write(Write(rows, p), q) == Write(rows, Merge(p, q))
  {
    WritesMerge(p, q);
    RowsAssociative(rows, Writes(p), Writes(q));
  }

  lemma WritesMerge(p: Patch, q: Patch)
    ensures Writes(Merge(p, q)) == Writes(p) + Writes(q)
  {
    var w, both := Writes(Merge(p, q)), Writes(p) + Writes(q);
    forall k | k in w ensures k in both && both[k] == w[k] { MergedOnlyBoth(p, q, k); }
    forall k | k in both ensures k in w { MergedHasBoth(p, q, k); }
  }

  lemma MergedOnlyBoth(p: Patch, q: Patch, k: Key)
    requires k in Writes(Merge(p, q))
    ensures k in Writes(p) + Writes(q) && (Writes(p) + Writes(q))[k] == Writes(Merge(p, q))[k]
  {
    var f := NamesWriter(Merge(p, q), k);
    assert Defined(p, f) || Defined(q, f);
  }

  lemma MergedHasBoth(p: Patch, q: Patch, k: Key)
    requires k in Writes(p) || k in Writes(q)
    ensures k in Writes(Merge(p, q))
  {
    if k in Writes(p) {
      var f := NamesWriter(p, k);
      assert Defined(Merge(p, q), f);
    } else {
      var f := NamesWriter(q, k);
      assert Defined(Merge(p, q), f);
    }
  }
}
