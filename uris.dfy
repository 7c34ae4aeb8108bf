/**
 * Building the request URI: the fixed host, the substituted path, and a
 * `?`-query made of the arguments the path did not consume. The query is
 * attempted only when the call passed at least one argument, and a `?`
 * with nothing after it is dropped.
 */
module Uris {
  import opened Text
  import opened Arguments
  import opened QueryString
  import opened Templates

  const Host: string := "https://api.envato.com"

  /** The `?`-suffix of the URI for a call of `arity` arguments whose unconsumed entries are `remaining`. */
  function QuerySuffix(arity: nat, remaining: seq<Arg>, escape: string -> string): (suffix: string)
    ensures suffix == "" <==> arity == 0 || remaining == []
    ensures suffix != "" ==> |suffix| > 1 && suffix == "?" + Stringify(remaining, escape)
  {
    var query := if arity > 0 then "?" + Stringify(remaining, escape) else "";
    if query != "?" then query else ""
  }

  /** The URI a call of `arity` arguments, whose arguments object holds `entries`, requests. */
  function RequestUri(path: string, arity: nat, entries: seq<Arg>, escape: string -> string): string {
    Host + SubstitutedPath(path, entries) + QuerySuffix(arity, Unconsumed(path, entries), escape)
  }

  /**
   * The URI is the host and the substituted path, followed by nothing when the
   * call had no arguments or all of them were consumed, and otherwise by `?`
   * and the non-empty serialisation of exactly the unconsumed arguments.
   */
  lemma UriShape(path: string, arity: nat, entries: seq<Arg>, escape: string -> string)
    ensures var base := Host + SubstitutedPath(path, entries);
      var remaining := Unconsumed(path, entries);
      var uri := RequestUri(path, arity, entries, escape);
      && base <= uri
      && (uri == base <==> arity == 0 || remaining == [])
      && (uri != base ==> uri == base + "?" + Stringify(remaining, escape) && Stringify(remaining, escape) != "")
  {
    var remaining := Unconsumed(path, entries);
    var suffix := QuerySuffix(arity, remaining, escape);
    assert RequestUri(path, arity, entries, escape) == (Host + SubstitutedPath(path, entries)) + suffix;
  }

  /** With an empty arguments object (no argument, or a non-object one) the URI is the host and the bare template. */
  lemma EmptyArgumentsUri(path: string, arity: nat, escape: string -> string)
    ensures RequestUri(path, arity, [], escape) == Host + path
  {
    assert Unconsumed(path, []) == [];
    assert QuerySuffix(arity, [], escape) == "";
  }

  /** When every argument is consumed by the template, no `?` is appended. */
  lemma AllConsumedNoQuery(path: string, arity: nat, entries: seq<Arg>, escape: string -> string)
    requires forall i :: 0 <= i < |entries| ==> Consumed(path, entries[i].key)
    ensures RequestUri(path, arity, entries, escape) == Host + SubstitutedPath(path, entries)
  {
    EverythingConsumed(path, entries);
  }

  /** A template without placeholders keeps its path, and every argument goes to the query in order. */
  lemma NoPlaceholderUri(path: string, arity: nat, entries: seq<Arg>, escape: string -> string)
    requires '%' !in path
    ensures RequestUri(path, arity, entries, escape) == Host + path + QuerySuffix(arity, entries, escape)
  {
    forall i | 0 <= i < |entries|
      ensures !Consumed(path, entries[i].key)
    {
      NoPercentConsumesNothing(path, entries[i].key);
    }
    NothingConsumed(path, path, entries);
  }

  /** A template without placeholders sends both of two arguments to the query, in order. */
  lemma NoPlaceholderTwoArguments(path: string, arity: nat, e1: Arg, e2: Arg, escape: string -> string)
    requires '%' !in path && arity > 0
    ensures RequestUri(path, arity, [e1, e2], escape)
         == Host + path + ("?" + (Pair(e1, escape) + "&" + Pair(e2, escape)))
  {
    NoPlaceholderUri(path, arity, [e1, e2], escape);
    assert [e1, e2] == [e1] + [e2];
    StringifyCons(e1, [e2], escape);
    assert Pairs([e2], escape) == [Pair(e2, escape)];
    assert Stringify([e2], escape) == Pair(e2, escape);
  }

  /** A template holding a single copy of the one argument's token: the value takes its place and no query follows. */
  lemma SoleTokenUri(a: string, key: string, b: string, value: string, arity: nat, escape: string -> string)
    requires '%' !in a && !Occurs(b, Token(key))
    ensures RequestUri(a + Token(key) + b, arity, [Arg(key, value)], escape) == Host + (a + value + b)
  {
    SoleTokenSubstitution(a, key, b, value);
    var template := a + Token(key) + b;
    var path := SubstitutedPath(template, [Arg(key, value)]);
    assert QuerySuffix(arity, [], escape) == "";
    assert RequestUri(template, arity, [Arg(key, value)], escape) == Host + path + "";
    assert Host + path + "" == Host + path;
  }

  /** A two-token template filled by exactly its two keys: no query is appended. */
  lemma TwoTokenUri(a: string, k1: string, m: string, k2: string, b: string, v1: string, v2: string,
                    arity: nat, escape: string -> string)
    requires '%' !in a && '%' !in m && '%' !in b && '%' !in v1
    requires !Occurs(m + Token(k2) + b, Token(k1))
    ensures RequestUri(a + Token(k1) + m + Token(k2) + b, arity, [Arg(k1, v1), Arg(k2, v2)], escape)
         == Host + (a + v1 + m + v2 + b)
  {
    TwoTokenSubstitution(a, k1, m, k2, b, v1, v2);
    var template := a + Token(k1) + m + Token(k2) + b;
    var path := SubstitutedPath(template, [Arg(k1, v1), Arg(k2, v2)]);
    assert QuerySuffix(arity, [], escape) == "";
    assert RequestUri(template, arity, [Arg(k1, v1), Arg(k2, v2)], escape) == Host + path + "";
    assert Host + path + "" == Host + path;
  }

  /** An actual argument of the call: an object, or anything else (which the request builder ignores). */
  datatype Argument = ObjectArgument(obj: ArgsObject) | OtherArgument

  predicate FirstIsObject(arguments: seq<Argument>) {
    |arguments| > 0 && arguments[0].ObjectArgument?
  }

  function FirstObject(arguments: seq<Argument>): set<object> {
    if FirstIsObject(arguments) then {arguments[0].obj} else {}
  }

  /** The entries of `args`: the first argument when it is an object, and an empty object otherwise. */
  function ArgumentEntries(arguments: seq<Argument>): (entries: seq<Arg>)
    reads FirstObject(arguments)
    ensures !FirstIsObject(arguments) ==> entries == []
  {
    if FirstIsObject(arguments) then arguments[0].obj.entries else []
  }

  /**
   * The request closure up to the URI: normalise the arguments, run the
   * substitution loop, and append the query. The caller's object loses its
   * consumed keys.
   */
  method BuildUri(path: string, arguments: seq<Argument>, escape: string -> string) returns (uri: string)
    requires FirstIsObject(arguments) ==> arguments[0].obj.Valid()
    modifies FirstObject(arguments)
    ensures uri == RequestUri(path, |arguments|, old(ArgumentEntries(arguments)), escape)
    ensures FirstIsObject(arguments) ==>
      arguments[0].obj.Valid() && arguments[0].obj.entries == Unconsumed(path, old(arguments[0].obj.entries))
  {
    var args: ArgsObject;
    if |arguments| > 0 && arguments[0].ObjectArgument? {
      args := arguments[0].obj;
    } else {
      args := new ArgsObject([]);
    }
    var currentPath := Substitute(path, args);
    var query := if |arguments| > 0 then "?" + Stringify(args.entries, escape) else "";
    uri := Host + currentPath + (if query != "?" then query else "");
  }
}
