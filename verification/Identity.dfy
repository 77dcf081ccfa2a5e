/** The text an observation's identifier is hashed from, and when it tells identities apart. */
module Identity {
  import opened Prelude
  import opened Bitemporal

  const BAR := '|'

  predicate BarFree(s: string) {
    BAR !in s
  }

  function Join(parts: seq<string>): string
    requires parts != []
  {
    if |parts| == 1 then parts[0] else parts[0] + [BAR] + Join(parts[1..])
  }

  /** The identity fields in their order; times and revision are rendered by the given functions. */
  function IdentityParts(o: Observation, iso: int -> string, num: int -> string): seq<string> {
    [o.source, o.dataset, o.entityId, iso(o.eventTime), iso(o.knowledgeTime), num(o.revision),
     match o.ref case None => "" case Some(r) => r]
  }

  function KeyText(o: Observation, iso: int -> string, num: int -> string): string {
    Join(IdentityParts(o, iso, num))
  }

  lemma FirstFieldIsDetermined(a: string, b: string, x: string, y: string)
    requires BarFree(a) && BarFree(b)
    requires a + [BAR] + x == b + [BAR] + y
    ensures a == b && x == y
  {
    var left, right := a + [BAR] + x, b + [BAR] + y;
    assert left[|a|] == BAR && right[|b|] == BAR;
    assert forall i :: 0 <= i < |a| ==> left[i] == a[i];
    assert forall i :: 0 <= i < |b| ==> right[i] == b[i];
    assert |a| == |b|;
    assert left[..|a|] == a && right[..|b|] == b;
    assert left[|a| + 1..] == x && right[|b| + 1..] == y;
  }

  /** Joined with a separator that only the last field may contain, the fields can be read back. */
  lemma {:induction false} JoinIsInjective(a: seq<string>, b: seq<string>)
    requires |a| == |b| > 0
    requires forall i :: 0 <= i < |a| - 1 ==> BarFree(a[i]) && BarFree(b[i])
    requires Join(a) == Join(b)
    ensures a == b
  {
    if |a| > 1 {
      FirstFieldIsDetermined(a[0], b[0], Join(a[1..]), Join(b[1..]));
      JoinIsInjective(a[1..], b[1..]);
      assert a == [a[0]] + a[1..] && b == [b[0]] + b[1..];
    }
  }

  /** A rendering of numbers that never collides and never contains the separator. */
  ghost predicate Faithful(render: int -> string) {
    && (forall n :: BarFree(render(n)))
    && (forall m, n :: render(m) == render(n) ==> m == n)
  }

  /** For sources, datasets and entities without the separator, equal key texts mean equal identities, and back. */
  lemma KeyTextIdentifies(a: Observation, b: Observation, iso: int -> string, num: int -> string)
    requires Faithful(iso) && Faithful(num)
    requires forall o :: o in {a, b} ==> BarFree(o.source) && BarFree(o.dataset) && BarFree(o.entityId)
    ensures KeyText(a, iso, num) == KeyText(b, iso, num) <==> a.DeterministicId() == b.DeterministicId()
  {
    var pa, pb := IdentityParts(a, iso, num), IdentityParts(b, iso, num);
    if KeyText(a, iso, num) == KeyText(b, iso, num) {
      JoinIsInjective(pa, pb);
      assert pa[0] == pb[0] && pa[1] == pb[1] && pa[2] == pb[2];
      assert pa[3] == pb[3] && pa[4] == pb[4] && pa[5] == pb[5] && pa[6] == pb[6];
    }
  }

  // ------------------------------------------------- when different identities collide

  /** Two identities under one key text. */
  ghost predicate Collide(a: Observation, b: Observation, iso: int -> string, num: int -> string) {
    a.DeterministicId() != b.DeterministicId() && KeyText(a, iso, num) == KeyText(b, iso, num)
  }

  function Bars(s: string): nat {
    if s == [] then 0 else Bars(s[1..]) + if s[0] == BAR then 1 else 0
  }

  lemma {:induction false} BarsOfAppend(s: string, t: string)
    ensures Bars(s + t) == Bars(s) + Bars(t)
  {
    if s == [] {
      assert s + t == t;
    } else {
      BarsOfAppend(s[1..], t);
      assert (s + t)[1..] == s[1..] + t;
    }
  }

  lemma {:induction false} NoBarsIsBarFree(s: string)
    ensures Bars(s) == 0 <==> BarFree(s)
  {
    if s != [] {
      NoBarsIsBarFree(s[1..]);
      assert s == [s[0]] + s[1..];
    }
  }

  function Barred(field: string, rest: string): string {
    field + [BAR] + rest
  }

  /** The text with source, dataset and entity in front, and the rest as one part. */
  function Fronted(o: Observation, rest: string): string {
    Barred(o.source, Barred(o.dataset, Barred(o.entityId, rest)))
  }

  function RefText(o: Observation): string {
    match o.ref case None => "" case Some(r) => r
  }

  /** Two times, a revision and a discriminator, as text. */
  function Stamp(iso: int -> string, num: int -> string, x: int, y: int, z: int, ref: string): string {
    Barred(iso(x), Barred(iso(y), Barred(num(z), ref)))
  }

  /** The part of the identity behind the entity, as text. */
  function Rest(o: Observation, iso: int -> string, num: int -> string): string {
    Stamp(iso, num, o.eventTime, o.knowledgeTime, o.revision, RefText(o))
  }

  lemma JoinOfFour(parts: seq<string>)
    requires |parts| == 4
    ensures Join(parts) == Barred(parts[0], Barred(parts[1], Barred(parts[2], parts[3])))
  {
    var three := parts[1..];
    var two := three[1..];
    assert Join(two[1..]) == parts[3];
    assert Join(two) == Barred(parts[2], parts[3]);
    assert Join(three) == Barred(parts[1], Join(two));
  }

  lemma KeyTextIsFronted(o: Observation, iso: int -> string, num: int -> string)
    ensures KeyText(o, iso, num) == Fronted(o, Rest(o, iso, num))
  {
    var parts := IdentityParts(o, iso, num);
    JoinOfFour(parts[3..]);
    assert parts[1..][1..] == parts[2..] && parts[2..][1..] == parts[3..];
    assert Join(parts[2..]) == Barred(o.entityId, Join(parts[3..]));
    assert Join(parts[1..]) == Barred(o.dataset, Join(parts[2..]));
  }

  lemma BarsOfField(field: string, rest: string)
    ensures Bars(Barred(field, rest)) == Bars(field) + 1 + Bars(rest)
  {
    BarsOfAppend(field + [BAR], rest);
    BarsOfAppend(field, [BAR]);
    assert [BAR][1..] == [];
  }

  lemma BarMoves(x: string, y: string, rest: string)
    ensures Barred(Barred(x, y), rest) == Barred(x, Barred(y, rest))
  {
  }

  /** The renderings of times and of numbers are faithful, and no time is rendered like a number. */
  ghost predicate Rendering(iso: int -> string, num: int -> string) {
    Faithful(iso) && Faithful(num) && forall m, n :: iso(m) != num(n)
  }

  /** A discriminator that, from its start or from behind a separator, goes on like the rest of an identity. */
  ghost predicate Stamped(ref: string, iso: int -> string, num: int -> string) {
    || (exists x, y, z, rest :: ref == Stamp(iso, num, x, y, z, rest))
    || (exists pre, x, y, z, rest :: ref == Barred(pre, Stamp(iso, num, x, y, z, rest)))
  }

  lemma FirstBar(s: string) returns (x: string, y: string)
    requires !BarFree(s)
    ensures BarFree(x) && s == Barred(x, y)
  {
    var i := 0;
    while s[i] != BAR
      invariant i < |s| && BAR !in s[..i]
      invariant BAR in s[i..]
      decreases |s| - i
    {
      assert s[i..] == [s[i]] + s[i + 1..] && s[..i + 1] == s[..i] + [s[i]];
      i := i + 1;
    }
    x, y := s[..i], s[i + 1..];
  }

  /** A field without separators, taken off the front of one text, comes off the front of what equals it. */
  lemma Peel(field: string, x: string, q: string, y: string) returns (rest: string)
    requires BarFree(field) && Barred(field, x) == Barred(q, y)
    ensures BarFree(q) ==> q == field && x == y
    ensures !BarFree(q) ==> q == Barred(field, rest) && x == Barred(rest, y)
  {
    if BarFree(q) {
      FirstFieldIsDetermined(field, q, x, y);
      rest := "";
    } else {
      var first;
      first, rest := FirstBar(q);
      BarMoves(first, rest, y);
      FirstFieldIsDetermined(field, first, x, Barred(rest, y));
    }
  }

  /** What stands before another stamp inside a stamp reaches into its discriminator. */
  lemma StampInsideStamp(iso: int -> string, num: int -> string, x: int, y: int, z: int, ref: string,
                         q: string, x': int, y': int, z': int, ref': string)
    requires Rendering(iso, num)
    requires Stamp(iso, num, x, y, z, ref) == Barred(q, Stamp(iso, num, x', y', z', ref'))
    ensures Stamped(ref, iso, num)
  {
    var stamp := Stamp(iso, num, x', y', z', ref');
    var q1 := Peel(iso(x), Barred(iso(y), Barred(num(z), ref)), q, stamp);
    if BarFree(q) {
      FirstFieldIsDetermined(iso(y), iso(x'), Barred(num(z), ref), Barred(iso(y'), Barred(num(z'), ref')));
      FirstFieldIsDetermined(num(z), iso(y'), ref, Barred(num(z'), ref'));
      assert false;
    }
    var q2 := Peel(iso(y), Barred(num(z), ref), q1, stamp);
    if BarFree(q1) {
      FirstFieldIsDetermined(num(z), iso(x'), ref, Barred(iso(y'), Barred(num(z'), ref')));
      assert false;
    }
    var q3 := Peel(num(z), ref, q2, stamp);
  }

  /** Equal stamps are of equal times, revisions and discriminators. */
  lemma StampIdentifies(iso: int -> string, num: int -> string, x: int, y: int, z: int, ref: string,
                        x': int, y': int, z': int, ref': string)
    requires Rendering(iso, num) && Stamp(iso, num, x, y, z, ref) == Stamp(iso, num, x', y', z', ref')
    ensures x == x' && y == y' && z == z' && ref == ref'
  {
    FirstFieldIsDetermined(iso(x), iso(x'), Barred(iso(y), Barred(num(z), ref)),
                           Barred(iso(y'), Barred(num(z'), ref')));
    FirstFieldIsDetermined(iso(y), iso(y'), Barred(num(z), ref), Barred(num(z'), ref'));
    FirstFieldIsDetermined(num(z), num(z'), ref, ref');
  }

  /** Source, dataset and entity as one text. */
  function Front(o: Observation): string {
    Barred(o.source, Barred(o.dataset, o.entityId))
  }

  lemma FrontAndRest(o: Observation, rest: string)
    ensures Fronted(o, rest) == Barred(Front(o), rest)
  {
    BarMoves(o.dataset, o.entityId, rest);
    BarMoves(o.source, Barred(o.dataset, o.entityId), rest);
  }

  lemma BarsOfFront(o: Observation)
    ensures Bars(Front(o)) == Bars(o.source) + Bars(o.dataset) + Bars(o.entityId) + 2
  {
    BarsOfField(o.dataset, o.entityId);
    BarsOfField(o.source, Barred(o.dataset, o.entityId));
  }

  ghost predicate FieldsAreBarFree(o: Observation) {
    BarFree(o.source) && BarFree(o.dataset) && BarFree(o.entityId)
  }

  lemma NoBarsInFields(o: Observation)
    ensures FieldsAreBarFree(o) <==> Bars(Front(o)) == 2
  {
    BarsOfFront(o);
    NoBarsIsBarFree(o.source);
    NoBarsIsBarFree(o.dataset);
    NoBarsIsBarFree(o.entityId);
  }

  lemma FrontIdentifies(a: Observation, b: Observation)
    requires FieldsAreBarFree(a) && Front(a) == Front(b)
    ensures a.source == b.source && a.dataset == b.dataset && a.entityId == b.entityId
  {
    NoBarsInFields(a);
    NoBarsInFields(b);
    FirstFieldIsDetermined(a.source, b.source, Barred(a.dataset, a.entityId), Barred(b.dataset, b.entityId));
    FirstFieldIsDetermined(a.dataset, b.dataset, a.entityId, b.entityId);
  }

  /** With the same front, the same text means the same identity. */
  lemma SameFrontSameIdentity(a: Observation, b: Observation, iso: int -> string, num: int -> string)
    requires Rendering(iso, num) && FieldsAreBarFree(a) && Front(a) == Front(b)
    requires Rest(a, iso, num) == Rest(b, iso, num)
    ensures a.DeterministicId() == b.DeterministicId()
  {
    FrontIdentifies(a, b);
    StampIdentifies(iso, num, a.eventTime, a.knowledgeTime, a.revision, RefText(a),
                    b.eventTime, b.knowledgeTime, b.revision, RefText(b));
  }

  /** If a's fields are free of separators, the other's front is a's, or a's and more. */
  lemma LongerFront(a: Observation, b: Observation, x: string, y: string) returns (q: string)
    requires FieldsAreBarFree(a) && Fronted(a, x) == Fronted(b, y)
    ensures (Front(b) == Front(a) && x == y) || x == Barred(q, y)
  {
    FrontAndRest(b, y);
    BarsOfFront(b);
    NoBarsIsBarFree(Front(b));
    var q1 := Peel(a.source, Barred(a.dataset, Barred(a.entityId, x)), Front(b), y);
    BarsOfField(a.source, q1);
    NoBarsIsBarFree(a.source);
    NoBarsIsBarFree(q1);
    var q2 := Peel(a.dataset, Barred(a.entityId, x), q1, y);
    q := Peel(a.entityId, x, q2, y);
  }

  /** An identity whose fields are free of separators collides only through its discriminator. */
  lemma CollidesThroughDiscriminator(a: Observation, b: Observation, iso: int -> string, num: int -> string)
    requires Rendering(iso, num) && FieldsAreBarFree(a) && Collide(a, b, iso, num)
    ensures Stamped(RefText(a), iso, num)
  {
    KeyTextIsFronted(a, iso, num);
    KeyTextIsFronted(b, iso, num);
    var q := LongerFront(a, b, Rest(a, iso, num), Rest(b, iso, num));
    if Front(b) == Front(a) && Rest(a, iso, num) == Rest(b, iso, num) {
      SameFrontSameIdentity(a, b, iso, num);
      assert false;
    }
    StampInsideStamp(iso, num, a.eventTime, a.knowledgeTime, a.revision, RefText(a),
                     q, b.eventTime, b.knowledgeTime, b.revision, RefText(b));
  }

  lemma SplitAtBar(s: string) returns (x: string, y: string)
    requires !BarFree(s)
    ensures s == Barred(x, y)
  {
    var i :| 0 <= i < |s| && s[i] == BAR;
    x, y := s[..i], s[i + 1..];
  }

  /** A separator moves between neighbouring fields, and nobody can tell. */
  lemma BarCollides(a: Observation, iso: int -> string, num: int -> string) returns (b: Observation)
    requires !FieldsAreBarFree(a)
    ensures Collide(a, b, iso, num)
  {
    var rest := Rest(a, iso, num);
    if !BarFree(a.source) {
      var x, y := SplitAtBar(a.source);
      b := a.(source := x, dataset := Barred(y, a.dataset));
      BarMoves(x, y, Barred(a.dataset, Barred(a.entityId, rest)));
      BarMoves(y, a.dataset, Barred(a.entityId, rest));
      assert |x| < |a.source|;
    } else if !BarFree(a.dataset) {
      var x, y := SplitAtBar(a.dataset);
      b := a.(dataset := x, entityId := Barred(y, a.entityId));
      BarMoves(x, y, Barred(a.entityId, rest));
      BarMoves(y, a.entityId, rest);
      assert |x| < |a.dataset|;
    } else {
      var x, y := SplitAtBar(a.entityId);
      b := a.(dataset := Barred(a.dataset, x), entityId := y);
      BarMoves(x, y, rest);
      BarMoves(a.dataset, x, Barred(y, rest));
      assert |y| < |a.entityId|;
    }
    assert Rest(b, iso, num) == rest;
    KeyTextIsFronted(a, iso, num);
    KeyTextIsFronted(b, iso, num);
  }

  /** The entity swallows the rest of the identity, which then starts over inside the discriminator. */
  lemma StampedCollides(a: Observation, iso: int -> string, num: int -> string) returns (b: Observation)
    requires Stamped(RefText(a), iso, num)
    ensures Collide(a, b, iso, num)
  {
    var t, k, v, e := iso(a.eventTime), iso(a.knowledgeTime), num(a.revision), a.entityId;
    if x, y, z, rest :| RefText(a) == Stamp(iso, num, x, y, z, rest) {
      b := a.(entityId := Barred(e, Barred(t, Barred(k, v))), eventTime := x, knowledgeTime := y, revision := z,
              ref := Some(rest));
      SwallowStamp(e, t, k, v, RefText(a));
    } else {
      var pre, x, y, z, rest :| RefText(a) == Barred(pre, Stamp(iso, num, x, y, z, rest));
      b := a.(entityId := Barred(e, Barred(t, Barred(k, Barred(v, pre)))), eventTime := x, knowledgeTime := y,
              revision := z, ref := Some(rest));
      SwallowStamp(e, t, k, Barred(v, pre), Stamp(iso, num, x, y, z, rest));
      BarMoves(v, pre, Stamp(iso, num, x, y, z, rest));
    }
    assert |b.entityId| > |e|;
    KeyTextIsFronted(a, iso, num);
    KeyTextIsFronted(b, iso, num);
  }

  lemma SwallowStamp(e: string, t: string, k: string, v: string, rest: string)
    ensures Barred(Barred(e, Barred(t, Barred(k, v))), rest) == Barred(e, Barred(t, Barred(k, Barred(v, rest))))
  {
    BarMoves(e, Barred(t, Barred(k, v)), rest);
    BarMoves(t, Barred(k, v), rest);
    BarMoves(k, v, rest);
  }

  /**
   * The separator is not escaped: an identity shares its key text with a different one exactly if its source, dataset
   * or entity contains the separator, or if its discriminator, from its start or from behind a separator, goes on with
   * two times and a revision, each followed by the separator.
   */
  lemma CollidesIff(a: Observation, iso: int -> string, num: int -> string)
    requires Rendering(iso, num)
    ensures (exists b :: Collide(a, b, iso, num)) <==> !FieldsAreBarFree(a) || Stamped(RefText(a), iso, num)
  {
    if !FieldsAreBarFree(a) {
      var b := BarCollides(a, iso, num);
    } else if Stamped(RefText(a), iso, num) {
      var b := StampedCollides(a, iso, num);
    } else {
      forall b ensures !Collide(a, b, iso, num) {
        if Collide(a, b, iso, num) {
          CollidesThroughDiscriminator(a, b, iso, num);
        }
      }
    }
  }

  /** One of two discriminators is missing and the other is empty. */
  predicate MissingAndEmpty(r: Option<string>, s: Option<string>) {
    (r == None && s == Some("")) || (r == Some("") && s == None)
  }

  /**
   * A missing discriminator and an empty one are different facts with one identifier. Of two different facts, ingesting
   * the second replaces the first exactly if they differ in that way only: all else about them is the same.
   */
  lemma ReplacesOtherFactIff(a: Observation, b: Observation)
    requires a.LogicalKey() != b.LogicalKey()
    ensures UpsertAll([], [a.WithDeterministicId(), b.WithDeterministicId()]) == [b.WithDeterministicId()] <==>
      && MissingAndEmpty(a.ref, b.ref)
      && a.source == b.source && a.dataset == b.dataset && a.entityId == b.entityId
      && a.eventTime == b.eventTime && a.knowledgeTime == b.knowledgeTime && a.revision == b.revision
  {
    var a', b' := a.WithDeterministicId(), b.WithDeterministicId();
    assert [a', b'][..1] == [a'] && [a'][..0] == [] && [a'][1..] == [];
    assert UpsertAll([], [a']) == [a'];
    assert UpsertAll([], [a', b']) == Upsert([a'], b');
    assert |Upsert([a'], b')| == if a'.id == b'.id then 1 else 2;
  }
}
