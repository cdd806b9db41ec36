/**
 * go_getAttrsList: the fields of a struct become properties of the module object, one after
 * the other, until one of them throws or panics.
 */
module Attributes {
  import opened Bytes

  const UNDERSCORE: byte := 0x5F
  const LOWER_A: byte := 0x61
  const LOWER_Z: byte := 0x7A
  const UPPER_A: byte := 0x41
  const UPPER_Z: byte := 0x5A

  /** What reflection finds: `bytes` says that the elements are bytes. */
  datatype Kind =
    | Scalar                                  // a boolean, number or string
    | SliceKind(bytes: bool, isNil: bool)
    | ArrayKind(bytes: bool)
    | MapKind(isNil: bool)
    | OtherKind

  /**
   * A field: the first byte of its name, whether it is exported, its kind, and whether
   * JavaScript accepts what is made of it: it is marshalled, and the text decodes and is not too long.
   */
  datatype Field = Field(first: byte, exported: bool, kind: Kind, accepted: bool)

  /** The rules of Go for names: an ASCII capital is exported, other ASCII is not. */
  predicate WellNamed(f: Field) {
    && (UPPER_A <= f.first <= UPPER_Z ==> f.exported)
    && (f.first < 0x80 && !(UPPER_A <= f.first <= UPPER_Z) ==> f.first == UNDERSCORE || LOWER_A <= f.first <= LOWER_Z)
    && (f.first == UNDERSCORE || LOWER_A <= f.first <= LOWER_Z ==> !f.exported)
  }

  datatype Listing = Listed | Threw | Panicked

  /** js_add_module_attr */
  function Added(f: Field): Listing {
    if f.accepted then Listed else Threw
  }

  /** argToJson(field.Interface(), ...), which reflection refuses for a field that is not exported. */
  function Marshalled(f: Field): Listing {
    if f.exported then Added(f) else Panicked
  }

  /** One turn of the loop; `arrayBytes` says that reflection's Bytes takes arrays, as from Go 1.19 on. */
  function ListField(f: Field, arrayBytes: bool): Listing {
    if f.first == UNDERSCORE || LOWER_A <= f.first <= LOWER_Z then Listed
    else
      match f.kind
      case Scalar => Added(f)
      case SliceKind(bytes, isNil) => if isNil then Listed else if bytes then Added(f) else Marshalled(f)
      case ArrayKind(bytes) => if !bytes then Marshalled(f) else if arrayBytes then Added(f) else Panicked
      case MapKind(isNil) => if isNil then Listed else Marshalled(f)
      case OtherKind => Listed
  }

  /** The listing of all fields: the first one that goes wrong decides. */
  function ListAll(fields: seq<Field>, arrayBytes: bool): Listing {
    if fields == [] then Listed
    else
      var r := ListField(fields[0], arrayBytes);
      if r.Listed? then ListAll(fields[1..], arrayBytes) else r
  }

  /** Field `k` ends the listing with `r`. */
  ghost predicate EndsAt(fields: seq<Field>, arrayBytes: bool, k: nat, r: Listing) {
    k < |fields| && ListField(fields[k], arrayBytes) == r && forall i | 0 <= i < k :: ListField(fields[i], arrayBytes).Listed?
  }

  /** A listing goes wrong exactly when some field does and all before it are listed. */
  lemma {:induction false} ListAllIs(fields: seq<Field>, arrayBytes: bool, r: Listing)
    requires !r.Listed?
    ensures ListAll(fields, arrayBytes) == r <==> exists k: nat :: EndsAt(fields, arrayBytes, k, r)
    decreases |fields|
  {
    if fields != [] {
      var rest := fields[1..];
      assert forall i | 0 <= i < |rest| :: rest[i] == fields[i + 1];
      ListAllIs(rest, arrayBytes, r);
      if k: nat :| EndsAt(fields, arrayBytes, k, r) {
        if k > 0 {
          assert EndsAt(rest, arrayBytes, k - 1, r);
          assert ListField(fields[0], arrayBytes).Listed?;
        }
      }
      if ListAll(fields, arrayBytes) == r {
        if ListField(fields[0], arrayBytes).Listed? {
          var k: nat :| EndsAt(rest, arrayBytes, k, r);
          assert forall i | 0 < i < k + 1 :: fields[i] == rest[i - 1];
          assert EndsAt(fields, arrayBytes, k + 1, r);
        } else {
          assert EndsAt(fields, arrayBytes, 0, r);
        }
      }
    }
  }

  /**
   * The fields that panic: byte arrays that can be seen, before Go 1.19; and fields that are
   * not exported but have a name that is not ASCII, when a list or map must be marshalled.
   */
  lemma FieldPanicsWhen(f: Field, arrayBytes: bool)
    requires WellNamed(f)
    ensures ListField(f, arrayBytes).Panicked? <==>
      || ((f.exported || f.first >= 0x80) && f.kind == ArrayKind(true) && !arrayBytes)
      || (!f.exported && f.first >= 0x80 &&
          (f.kind == SliceKind(false, false) || f.kind == ArrayKind(false) || f.kind == MapKind(false)))
  {
  }

  /** The fields that throw: those that can be seen, are not nil and do not panic, and that JavaScript refuses. */
  lemma FieldThrowsWhen(f: Field, arrayBytes: bool)
    requires WellNamed(f)
    ensures ListField(f, arrayBytes).Threw? <==>
      && !f.accepted && (f.exported || f.first >= 0x80) && !ListField(f, arrayBytes).Panicked?
      && match f.kind
         case Scalar => true
         case SliceKind(_, isNil) => !isNil
         case ArrayKind(_) => true
         case MapKind(isNil) => !isNil
         case OtherKind => false
  {
  }

  /** The field becomes an attribute, if nothing goes wrong. */
  predicate IsAttribute(f: Field) {
    f.first != UNDERSCORE && !(LOWER_A <= f.first <= LOWER_Z) && !f.kind.OtherKind?
  }

  /** The attributes among the first `n` fields, in order. */
  function AttributesOf(fields: seq<Field>, n: nat): seq<nat>
    requires n <= |fields|
  {
    if n == 0 then []
    else AttributesOf(fields, n - 1) + if IsAttribute(fields[n - 1]) then [n - 1] else []
  }

  /** They are listed once each, in order: all with a name that can be seen and a kind that the switch knows. */
  lemma {:induction false} AttributesOfIs(fields: seq<Field>, n: nat)
    requires n <= |fields| && forall i | 0 <= i < |fields| :: WellNamed(fields[i])
    ensures forall i: nat :: i in AttributesOf(fields, n) <==>
      i < n && (fields[i].exported || fields[i].first >= 0x80) && fields[i].kind != OtherKind
    ensures forall i, j | 0 <= i < j < |AttributesOf(fields, n)| :: AttributesOf(fields, n)[i] < AttributesOf(fields, n)[j]
  {
    if n > 0 {
      AttributesOfIs(fields, n - 1);
      var before := AttributesOf(fields, n - 1);
      assert forall i | 0 <= i < |before| :: before[i] in before;
    }
  }

  /** One turn of the loop of go_getAttrsList. */
  method AddAttribute(field: Field, arrayBytes: bool) returns (r: Listing)
    requires IsAttribute(field)
    ensures r == ListField(field, arrayBytes)
  {
    var marshal, none := false, false;
    match field.kind {
      case Scalar =>
      case SliceKind(bytes, isNil) =>
        none := isNil;
        marshal := !isNil && !bytes;
      case ArrayKind(bytes) =>
        if bytes && !arrayBytes {
          return Panicked;                      // field.Bytes()
        }
        marshal := !bytes;
      case MapKind(isNil) =>
        none := isNil;
        marshal := !isNil;
      case OtherKind =>
    }
    if marshal && !field.exported {
      return Panicked;                          // field.Interface()
    }
    r := if none || field.accepted then Listed else Threw;
  }

  /** The loop of go_getAttrsList: `attrs` are the fields added before it ended at `stop`. */
  method ListAttributes(fields: seq<Field>, arrayBytes: bool) returns (r: Listing, attrs: seq<nat>, ghost stop: nat)
    ensures r == ListAll(fields, arrayBytes)
    ensures stop <= |fields| && attrs == AttributesOf(fields, stop)
    ensures if r.Listed? then stop == |fields| else EndsAt(fields, arrayBytes, stop, r)
  {
    attrs, stop := [], 0;
    var i: nat := 0;
    while i < |fields|
      invariant i <= |fields| && stop == i && attrs == AttributesOf(fields, i)
      invariant ListAll(fields, arrayBytes) == ListAll(fields[i..], arrayBytes)
      invariant forall k | 0 <= k < i :: ListField(fields[k], arrayBytes).Listed?
    {
      assert fields[i..][1..] == fields[i + 1..];
      if IsAttribute(fields[i]) {
        var added := AddAttribute(fields[i], arrayBytes);
        if !added.Listed? {
          return added, attrs, i;
        }
        attrs := attrs + [i];
      }
      i, stop := i + 1, i + 1;
    }
    r := Listed;
  }
}
