/**
 * `QueryString.stringify` on a flat object of string values: each entry
 * becomes `escape(key)=escape(value)`, joined by `&` in enumeration order.
 * The percent-encoding `escape` is a parameter.
 */
module QueryString {
  import opened Text
  import opened Arguments

  function Pair(e: Arg, escape: string -> string): (p: string)
    ensures |p| > 0
  {
    escape(e.key) + "=" + escape(e.value)
  }

  function Pairs(entries: seq<Arg>, escape: string -> string): (ps: seq<string>)
    ensures |ps| == |entries|
    ensures forall i :: 0 <= i < |entries| ==> ps[i] == Pair(entries[i], escape)
  {
    if entries == [] then [] else [Pair(entries[0], escape)] + Pairs(entries[1..], escape)
  }

  /** The serialised query; it is empty exactly when there is nothing to serialise. */
  function Stringify(entries: seq<Arg>, escape: string -> string): (q: string)
    ensures q == "" <==> entries == []
  {
    Join(Pairs(entries, escape), "&")
  }

  /** Serialising an entry in front of others puts its pair first, then `&`. */
  lemma StringifyCons(e: Arg, rest: seq<Arg>, escape: string -> string)
    requires rest != []
    ensures Stringify([e] + rest, escape) == Pair(e, escape) + "&" + Stringify(rest, escape)
  {
    assert ([e] + rest)[1..] == rest;
    assert Pairs([e] + rest, escape)[1..] == Pairs(rest, escape);
  }
}
