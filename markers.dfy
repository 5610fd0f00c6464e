/**
 The `#[into_false]` marker: recognising it on an attribute, removing it from a
 variant's attribute list, and finding the first variant that carries it.
 */
module Markers {
  import opened Syntax

  /** The name of the sub-attribute that marks the variant meaning `false`. */
  const INTO_FALSE: Ident := "into_false"

  /** True when the attribute is `#[into_false]`. */
  predicate IsIntoFalse(a: Attr)
  {
    IsIdent(a.path, INTO_FALSE)
  }

  /** True when some attribute of the list is `#[into_false]`. */
  predicate HasMarker(attrs: seq<Attr>)
  {
    exists a :: a in attrs && IsIntoFalse(a)
  }

  /**
   The attribute list with every `#[into_false]` dropped and every other
   attribute kept, in its original order.
   */
  function RemoveMarkers(attrs: seq<Attr>): (r: seq<Attr>)
    ensures forall a :: a in r <==> a in attrs && !IsIntoFalse(a)
    ensures !HasMarker(r)
    ensures |r| <= |attrs|
  {
    if attrs == [] then []
    else if IsIntoFalse(attrs[0]) then RemoveMarkers(attrs[1..])
    else [attrs[0]] + RemoveMarkers(attrs[1..])
  }

  /** Removing markers distributes over concatenation, so relative order is kept. */
  lemma {:induction false} RemoveMarkersAppend(a: seq<Attr>, b: seq<Attr>)
    ensures RemoveMarkers(a + b) == RemoveMarkers(a) + RemoveMarkers(b)
  {
    if a == [] {
      assert a + b == b;
    } else {
      assert (a + b)[0] == a[0];
      assert (a + b)[1..] == a[1..] + b;
      RemoveMarkersAppend(a[1..], b);
    }
  }

  /**
   Every other attribute survives with its multiplicity; every marker is gone.
   */
  lemma {:induction false} RemoveMarkersCount(attrs: seq<Attr>, a: Attr)
    ensures multiset(RemoveMarkers(attrs))[a] == if IsIntoFalse(a) then 0 else multiset(attrs)[a]
  {
    if attrs != [] {
      assert attrs == [attrs[0]] + attrs[1..];
      RemoveMarkersCount(attrs[1..], a);
    }
  }

  /** The list is left exactly as it was if and only if it carries no marker. */
  lemma {:induction false} RemoveMarkersUnchanged(attrs: seq<Attr>)
    ensures RemoveMarkers(attrs) == attrs <==> !HasMarker(attrs)
  {
    if attrs != [] {
      RemoveMarkersUnchanged(attrs[1..]);
      if !HasMarker(attrs) {
        assert !IsIntoFalse(attrs[0]);
        assert !HasMarker(attrs[1..]) by {
          forall k | 0 <= k < |attrs[1..]| ensures !IsIntoFalse(attrs[1..][k]) {
            assert attrs[1..][k] == attrs[k + 1];
          }
        }
      }
    }
  }

  /** Removing markers twice is the same as removing them once. */
  lemma RemoveMarkersIdempotent(attrs: seq<Attr>)
    ensures RemoveMarkers(RemoveMarkers(attrs)) == RemoveMarkers(attrs)
  {
    RemoveMarkersUnchanged(RemoveMarkers(attrs));
  }

  /**
   The position of the first variant, in declaration order, that carries an
   `#[into_false]` attribute, or None when no variant carries one.
   */
  function FirstMarked(vs: seq<Variant>): (r: Option<nat>)
    ensures r.Some? ==> r.value < |vs| && HasMarker(vs[r.value].attrs)
    ensures r.Some? ==> forall k :: 0 <= k < r.value ==> !HasMarker(vs[k].attrs)
    ensures r.None? <==> forall k :: 0 <= k < |vs| ==> !HasMarker(vs[k].attrs)
  {
    if vs == [] then None
    else if HasMarker(vs[0].attrs) then Some(0)
    else match FirstMarked(vs[1..])
      case None => None
      case Some(i) => Some(i + 1)
  }

  /** The first-marked position is the only one with a marker and none before it. */
  lemma {:induction false} FirstMarkedAt(vs: seq<Variant>, i: nat)
    requires i < |vs| && HasMarker(vs[i].attrs)
    requires forall k :: 0 <= k < i ==> !HasMarker(vs[k].attrs)
    ensures FirstMarked(vs) == Some(i)
  {
    if i > 0 {
      assert !HasMarker(vs[0].attrs);
      assert vs[1..][i - 1] == vs[i];
      forall k | 0 <= k < i - 1 ensures !HasMarker(vs[1..][k].attrs) {
        assert vs[1..][k] == vs[k + 1];
      }
      FirstMarkedAt(vs[1..], i - 1);
    }
  }
}
