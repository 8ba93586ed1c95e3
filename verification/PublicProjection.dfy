/** `_public_projection` (scripts/collect_identity_undo_evidence.py): what of a record is published. */
module PublicProjection {
  import opened Json

  const MARKER := "[excluded]"

  /** `sensitive` judges key names, `secret` judges text: the collector's two scanners. */
  datatype Scanners = Scanners(sensitive: string -> bool, secret: string -> bool)

  predicate Dropped(sc: Scanners, key: string) {
    sc.sensitive(key) || key in {"record_hash", "signature", "signature_algorithm", "signature_key_id"}
  }

  function Project(sc: Scanners, j: Json): (r: Json)
    ensures j.Obj? ==> r.Obj? && r.fields.Keys == set k | k in j.fields && !Dropped(sc, k)
  {
    match j
    case Obj(fields) => Obj(map k | k in fields && !Dropped(sc, k) :: Project(sc, fields[k]))
    case Arr(items) => Arr(seq(|items|, i requires 0 <= i < |items| => Project(sc, items[i])))
    case Str(s) => if sc.secret(s) then Str(MARKER) else j
    case _ => j
  }

  /** Nothing that must not be published, at any depth. */
  ghost predicate Clean(sc: Scanners, j: Json) {
    match j
    case Obj(fields) => forall k :: k in fields ==> !Dropped(sc, k) && Clean(sc, fields[k])
    case Arr(items) => forall i :: 0 <= i < |items| ==> Clean(sc, items[i])
    case Str(s) => sc.secret(s) ==> s == MARKER
    case _ => true
  }

  /** Two records that differ only in what is not published. */
  ghost predicate Alike(sc: Scanners, a: Json, b: Json) {
    match a
    case Obj(f) =>
      && b.Obj?
      && (forall k :: !Dropped(sc, k) ==> (k in f <==> k in b.fields))
      && forall k :: k in f && k in b.fields && !Dropped(sc, k) ==> Alike(sc, f[k], b.fields[k])
    case Arr(items) =>
      b.Arr? && |items| == |b.items| && forall i :: 0 <= i < |items| ==> Alike(sc, items[i], b.items[i])
    case Str(s) => b.Str? && (s == b.s || (Hidden(sc, s) && Hidden(sc, b.s)))
    case _ => a == b
  }

  predicate Hidden(sc: Scanners, s: string) {
    sc.secret(s) || s == MARKER
  }

  /** A key is published exactly if it is there, is not judged sensitive and is not one of the four of a signature. */
  lemma PublishedKeys(sc: Scanners, fields: map<string, Json>, k: string)
    ensures k in Project(sc, Obj(fields)).fields <==>
              && k in fields && !sc.sensitive(k) && k != "record_hash" && k != "signature"
              && k != "signature_algorithm" && k != "signature_key_id"
    ensures k in Project(sc, Obj(fields)).fields ==> Project(sc, Obj(fields)).fields[k] == Project(sc, fields[k])
  {
  }

  /** Published records are clean at every depth. */
  lemma {:induction false} ProjectionIsClean(sc: Scanners, j: Json)
    ensures Clean(sc, Project(sc, j))
  {
    match j
    case Obj(fields) => forall k | k in fields ensures Clean(sc, Project(sc, fields[k])) {
      ProjectionIsClean(sc, fields[k]);
    }
    case Arr(items) => forall i | 0 <= i < |items| ensures Clean(sc, Project(sc, items[i])) {
      ProjectionIsClean(sc, items[i]);
    }
    case _ =>
  }

  /** Clean records are published as they are; with `ProjectionIsClean`, projecting twice is projecting once. */
  lemma {:induction false} CleanIsFixed(sc: Scanners, j: Json)
    requires Clean(sc, j)
    ensures Project(sc, j) == j
  {
    match j
    case Obj(fields) => forall k | k in fields ensures Project(sc, fields[k]) == fields[k] {
      CleanIsFixed(sc, fields[k]);
    }
    case Arr(items) => forall i | 0 <= i < |items| ensures Project(sc, items[i]) == items[i] {
      CleanIsFixed(sc, items[i]);
    }
    case _ =>
  }

  lemma Idempotent(sc: Scanners, j: Json)
    ensures Project(sc, Project(sc, j)) == Project(sc, j)
  {
    ProjectionIsClean(sc, j);
    CleanIsFixed(sc, Project(sc, j));
  }

  /** The projection forgets exactly the unpublished parts: nothing more, nothing less. */
  lemma {:induction false} ForgetsExactly(sc: Scanners, a: Json, b: Json)
    ensures Project(sc, a) == Project(sc, b) <==> Alike(sc, a, b)
  {
    match a
    case Obj(f) =>
      if b.Obj? {
        var p, q := Project(sc, a).fields, Project(sc, b).fields;
        forall k | k in f && k in b.fields && !Dropped(sc, k) ensures p[k] == q[k] <==> Alike(sc, f[k], b.fields[k]) {
          ForgetsExactly(sc, f[k], b.fields[k]);
        }
        if Alike(sc, a, b) { assert p == q; }
        if p == q {
          forall k | !Dropped(sc, k) ensures k in f <==> k in b.fields { assert k in p <==> k in q; }
        }
      }
    case Arr(items) =>
      if b.Arr? && |items| == |b.items| {
        var p, q := Project(sc, a).items, Project(sc, b).items;
        forall i | 0 <= i < |items| ensures p[i] == q[i] <==> Alike(sc, items[i], b.items[i]) {
          ForgetsExactly(sc, items[i], b.items[i]);
        }
      } else if b.Arr? {
        assert |Project(sc, a).items| != |Project(sc, b).items|;
      }
    case _ =>
  }
}
