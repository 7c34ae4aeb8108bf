/**
 * Path-template substitution (the `for (var key in args)` loop of the request
 * closure): every key whose `%key` token occurs in the ORIGINAL template has
 * all its occurrences in the working path replaced by its value and is then
 * deleted from the arguments object.
 */
module Templates {
  import opened Options
  import opened Text
  import opened Arguments

  /** The placeholder token of a key: `'%' + key`. */
  function Token(key: string): (t: string)
    ensures |t| == |key| + 1 && t[0] == '%'
  {
    "%" + key
  }

  /** `path.indexOf('%' + key) >= 0`, tested against the template, not the working path. */
  predicate Consumed(template: string, key: string) {
    IndexOf(template, Token(key)) >= 0
  }

  /** One iteration of the loop on the working path. */
  function Step(template: string, current: string, e: Arg): string {
    if Consumed(template, e.key) then ReplaceAll(current, Token(e.key), e.value) else current
  }

  /** The working path after the loop has visited `entries` in order, starting from `current`. */
  function Substituted(template: string, current: string, entries: seq<Arg>): string
    decreases |entries|
  {
    if entries == [] then current
    else Substituted(template, Step(template, current, entries[0]), entries[1..])
  }

  /** `currentPath` after the loop. */
  function SubstitutedPath(template: string, entries: seq<Arg>): string {
    Substituted(template, template, entries)
  }

  /** The entries the loop does not delete, in their original order. */
  function Unconsumed(template: string, entries: seq<Arg>): seq<Arg> {
    if entries == [] then []
    else (if Consumed(template, entries[0].key) then [] else [entries[0]]) + Unconsumed(template, entries[1..])
  }

  /** A key is consumed exactly when its token occurs in the template. */
  lemma ConsumedIffOccurs(template: string, key: string)
    ensures Consumed(template, key) <==> Occurs(template, Token(key))
  {
  }

  /**
   * The test is a plain substring search, so a key whose token is a prefix of
   * another token is consumed too: key `s` is consumed by a template holding `%site`.
   */
  lemma PrefixKeyConsumed(a: string, key: string, more: string, b: string)
    ensures Consumed(a + Token(key + more) + b, key)
  {
    assert a + Token(key + more) + b == a + Token(key) + (more + b);
    OccursAtMiddle(a, Token(key), more + b);
  }

  /** A template without any `%` consumes no key. */
  lemma NoPercentConsumesNothing(template: string, key: string)
    requires '%' !in template
    ensures !Consumed(template, key)
  {
    AbsentFirstChar(template, Token(key));
  }

  /** Filtering distributes over concatenation, so the kept entries keep their order. */
  lemma {:induction false} UnconsumedAppend(template: string, a: seq<Arg>, b: seq<Arg>)
    ensures Unconsumed(template, a + b) == Unconsumed(template, a) + Unconsumed(template, b)
  {
    if a == [] {
      assert a + b == b;
    } else {
      assert (a + b)[1..] == a[1..] + b;
      UnconsumedAppend(template, a[1..], b);
    }
  }

  /** An entry is left for the query exactly when it was passed and its token is not in the template. */
  lemma {:induction false} UnconsumedMembers(template: string, entries: seq<Arg>, e: Arg)
    ensures e in Unconsumed(template, entries) <==> e in entries && !Consumed(template, e.key)
  {
    if entries != [] {
      UnconsumedMembers(template, entries[1..], e);
      assert entries == [entries[0]] + entries[1..];
    }
  }

  /**
   * Seen as a map, the object left after the loop lacks every consumed key
   * and keeps every other binding unchanged.
   */
  lemma {:induction false} UnconsumedLookup(template: string, entries: seq<Arg>, key: string)
    ensures Lookup(Unconsumed(template, entries), key)
         == if Consumed(template, key) then None else Lookup(entries, key)
  {
    if entries != [] {
      UnconsumedLookup(template, entries[1..], key);
      var rest := Unconsumed(template, entries[1..]);
      if !Consumed(template, entries[0].key) {
        assert ([entries[0]] + rest)[0] == entries[0] && ([entries[0]] + rest)[1..] == rest;
      } else {
        assert [] + rest == rest;
      }
    }
  }

  /** The keys left for the query are exactly the passed keys whose tokens are not in the template. */
  lemma UnconsumedKeys(template: string, entries: seq<Arg>)
    ensures Keys(Unconsumed(template, entries)) == set k | k in Keys(entries) && !Consumed(template, k)
  {
    forall e ensures e in Unconsumed(template, entries) <==> e in entries && !Consumed(template, e.key) {
      UnconsumedMembers(template, entries, e);
    }
  }

  /** When no token occurs in the template, the path and the arguments are both untouched. */
  lemma {:induction false} NothingConsumed(template: string, current: string, entries: seq<Arg>)
    requires forall i :: 0 <= i < |entries| ==> !Consumed(template, entries[i].key)
    ensures Substituted(template, current, entries) == current
    ensures Unconsumed(template, entries) == entries
  {
    if entries != [] {
      NothingConsumed(template, current, entries[1..]);
      assert [entries[0]] + entries[1..] == entries;
    }
  }

  /** When every token occurs in the template, nothing is left for the query. */
  lemma {:induction false} EverythingConsumed(template: string, entries: seq<Arg>)
    requires forall i :: 0 <= i < |entries| ==> Consumed(template, entries[i].key)
    ensures Unconsumed(template, entries) == []
  {
    if entries != [] {
      assert Consumed(template, entries[0].key);
      EverythingConsumed(template, entries[1..]);
    }
  }

  /** An argument whose token is not in the template has no effect on the path. */
  lemma {:induction false} UnconsumedArgumentIgnored(template: string, current: string, a: seq<Arg>, e: Arg, b: seq<Arg>)
    requires !Consumed(template, e.key)
    ensures Substituted(template, current, a + [e] + b) == Substituted(template, current, a + b)
    decreases |a|
  {
    if a == [] {
      assert a + [e] + b == [e] + b && ([e] + b)[1..] == b;
      assert a + b == b;
    } else {
      assert (a + [e] + b)[1..] == a[1..] + [e] + b;
      assert (a + b)[1..] == a[1..] + b;
      UnconsumedArgumentIgnored(template, Step(template, current, a[0]), a[1..], e, b);
    }
  }

  /**
   * A single argument: when its token occurs in the template, the template is
   * its token-free pieces around at least one token and every token is replaced;
   * otherwise the template is returned as it is.
   */
  lemma SubstituteOne(template: string, key: string, value: string)
    ensures Consumed(template, key) ==> SubstitutedPath(template, [Arg(key, value)]) == ReplaceAll(template, Token(key), value)
    ensures Consumed(template, key) ==>
      exists parts: seq<string> ::
        && |parts| >= 2
        && Join(parts, Token(key)) == template
        && (forall k :: 0 <= k < |parts| ==> !Occurs(parts[k], Token(key)))
        && SubstitutedPath(template, [Arg(key, value)]) == Join(parts, value)
    ensures !Consumed(template, key) ==> SubstitutedPath(template, [Arg(key, value)]) == template
  {
    var tok := Token(key);
    var parts := Split(template, tok);
    var e := Arg(key, value);
    assert [e][1..] == [];
    assert Substituted(template, template, [e]) == Substituted(template, Step(template, template, e), []);
    JoinSplit(template, tok);
    SplitPiecesFree(template, tok);
    SplitCutsIffOccurs(template, tok);
    assert Join(parts, tok) == template;
  }

  /** A template holding one copy of a key's token: the value takes its place and the key is consumed. */
  lemma SoleTokenSubstitution(a: string, key: string, b: string, value: string)
    requires '%' !in a && !Occurs(b, Token(key))
    ensures SubstitutedPath(a + Token(key) + b, [Arg(key, value)]) == a + value + b
    ensures Unconsumed(a + Token(key) + b, [Arg(key, value)]) == []
  {
    var t := a + Token(key) + b;
    var e := Arg(key, value);
    OccursAtMiddle(a, Token(key), b);
    assert Consumed(t, key);
    ReplaceSoleOccurrence(a, Token(key), b, value);
    assert [e][1..] == [];
    assert Substituted(t, t, [e]) == Substituted(t, Step(t, t, e), []);
  }

  /** Folding two arguments is two steps; when both are consumed, neither is left over. */
  lemma TwoEntries(template: string, current: string, e1: Arg, e2: Arg)
    ensures Substituted(template, current, [e1, e2]) == Step(template, Step(template, current, e1), e2)
    ensures Consumed(template, e1.key) && Consumed(template, e2.key) ==> Unconsumed(template, [e1, e2]) == []
  {
    assert [e1, e2][1..] == [e2];
    assert [e2][1..] == [];
    var c1 := Step(template, current, e1);
    assert Substituted(template, current, [e1, e2]) == Substituted(template, c1, [e2]);
    assert Substituted(template, c1, [e2]) == Substituted(template, Step(template, c1, e2), []);
    assert Unconsumed(template, [e1, e2]) == (if Consumed(template, e1.key) then [] else [e1]) + Unconsumed(template, [e2]);
    assert Unconsumed(template, [e2]) == (if Consumed(template, e2.key) then [] else [e2]) + Unconsumed(template, []);
  }

  /** One step on a current path that holds its token exactly once, with no `%` before it. */
  lemma TokenStep(template: string, a: string, key: string, b: string, value: string)
    requires Consumed(template, key) && '%' !in a && !Occurs(b, Token(key))
    ensures Step(template, a + Token(key) + b, Arg(key, value)) == a + value + b
  {
    ReplaceSoleOccurrence(a, Token(key), b, value);
  }

  /** Both keys of a two-token template are consumed. */
  lemma TwoTokensConsumed(a: string, k1: string, m: string, k2: string, b: string)
    ensures Consumed(a + Token(k1) + m + Token(k2) + b, k1)
    ensures Consumed(a + Token(k1) + m + Token(k2) + b, k2)
  {
    var t1, t2 := Token(k1), Token(k2);
    var template := a + t1 + m + t2 + b;
    assert template == a + t1 + (m + t2 + b);
    OccursAtMiddle(a, t1, m + t2 + b);
    OccursAtMiddle(a + t1 + m, t2, b);
  }

  /** The first step on a template replaces a token that opens it once. */
  lemma FirstStep(template: string, a: string, key: string, rest: string, value: string)
    requires template == a + Token(key) + rest
    requires '%' !in a && !Occurs(rest, Token(key))
    ensures Step(template, template, Arg(key, value)) == a + value + rest
  {
    OccursAtMiddle(a, Token(key), rest);
    TokenStep(template, a, key, rest, value);
  }

  /** A later step replaces a token that the working path holds once, after `%`-free text. */
  lemma LaterStep(template: string, current: string, a: string, key: string, b: string, value: string)
    requires current == a + Token(key) + b && Consumed(template, key)
    requires '%' !in a && '%' !in b
    ensures Step(template, current, Arg(key, value)) == a + value + b
  {
    AbsentFirstChar(b, Token(key));
    TokenStep(template, a, key, b, value);
  }

  /** Regrouping the text of a two-token template around its first token, before and after filling it. */
  lemma Regroup(a: string, t: string, m: string, u: string, b: string, v: string)
    ensures a + t + m + u + b == a + t + (m + u + b)
    ensures a + v + (m + u + b) == (a + v + m) + u + b
  {
  }

  /** Both tokens of a two-token template, named by a variable, filled in order. */
  lemma TwoTokenFill(template: string, a: string, k1: string, m: string, k2: string, b: string, v1: string, v2: string)
    requires template == a + Token(k1) + m + Token(k2) + b
    requires '%' !in a && '%' !in m && '%' !in b && '%' !in v1
    requires !Occurs(m + Token(k2) + b, Token(k1))
    ensures SubstitutedPath(template, [Arg(k1, v1), Arg(k2, v2)]) == a + v1 + m + v2 + b
    ensures Unconsumed(template, [Arg(k1, v1), Arg(k2, v2)]) == []
  {
    var rest := m + Token(k2) + b;
    TwoTokensConsumed(a, k1, m, k2, b);
    Regroup(a, Token(k1), m, Token(k2), b, v1);
    FirstStep(template, a, k1, rest, v1);
    LaterStep(template, (a + v1 + m) + Token(k2) + b, a + v1 + m, k2, b, v2);
    TwoEntries(template, template, Arg(k1, v1), Arg(k2, v2));
  }

  /**
   * A template with two tokens, filled in the order of the arguments: the first
   * value must not bring in a `%`, and the text after the first token must not
   * hold it again.
   */
  lemma TwoTokenSubstitution(a: string, k1: string, m: string, k2: string, b: string, v1: string, v2: string)
    requires '%' !in a && '%' !in m && '%' !in b && '%' !in v1
    requires !Occurs(m + Token(k2) + b, Token(k1))
    ensures SubstitutedPath(a + Token(k1) + m + Token(k2) + b, [Arg(k1, v1), Arg(k2, v2)]) == a + v1 + m + v2 + b
    ensures Unconsumed(a + Token(k1) + m + Token(k2) + b, [Arg(k1, v1), Arg(k2, v2)]) == []
  {
    TwoTokenFill(a + Token(k1) + m + Token(k2) + b, a, k1, m, k2, b, v1, v2);
  }

  lemma UnconsumedKeysWithin(template: string, entries: seq<Arg>)
    ensures Keys(Unconsumed(template, entries)) <= Keys(entries)
  {
    UnconsumedKeys(template, entries);
  }

  lemma DistinctAt(entries: seq<Arg>, i: nat)
    requires DistinctKeys(entries) && i < |entries|
    ensures entries[i].key !in Keys(entries[..i])
    ensures entries[i].key !in Keys(entries[i + 1..])
  {
    forall e | e in entries[..i] ensures e.key != entries[i].key {
      var j :| 0 <= j < i && entries[..i][j] == e;
    }
    forall e | e in entries[i + 1..] ensures e.key != entries[i].key {
      var j :| 0 <= j < |entries| - i - 1 && entries[i + 1..][j] == e;
      assert e == entries[i + 1 + j];
    }
  }

  /** Looking up and deleting the key being visited, when no other entry has it. */
  lemma VisitEntry(kept: seq<Arg>, e: Arg, rest: seq<Arg>)
    requires e.key !in Keys(kept) && e.key !in Keys(rest)
    ensures Lookup(kept + ([e] + rest), e.key) == Some(e.value)
    ensures RemoveKey(kept + ([e] + rest), e.key) == kept + rest
  {
    var tail := [e] + rest;
    var k := e.key;
    assert tail[0] == e && tail[1..] == rest;
    LookupAppend(kept, tail, k);
    RemoveKeyAppend(kept, tail, k);
    RemoveKeyAbsent(kept, k);
    RemoveKeyAbsent(rest, k);
    assert RemoveKey(tail, k) == RemoveKey(rest, k);
  }

  lemma UnconsumedSnoc(path: string, entries: seq<Arg>, e: Arg)
    ensures Unconsumed(path, entries + [e])
         == Unconsumed(path, entries) + (if Consumed(path, e.key) then [] else [e])
  {
    UnconsumedAppend(path, entries, [e]);
    assert [e][1..] == [];
  }

  /** What one iteration of the loop does to the arguments object. */
  lemma LoopStepArguments(path: string, enumeration: seq<Arg>, i: nat)
    requires DistinctKeys(enumeration) && i < |enumeration|
    ensures var before := Unconsumed(path, enumeration[..i]) + enumeration[i..];
      && Lookup(before, enumeration[i].key) == Some(enumeration[i].value)
      && (Consumed(path, enumeration[i].key) ==>
            RemoveKey(before, enumeration[i].key) == Unconsumed(path, enumeration[..i + 1]) + enumeration[i + 1..])
      && (!Consumed(path, enumeration[i].key) ==>
            before == Unconsumed(path, enumeration[..i + 1]) + enumeration[i + 1..])
  {
    var e := enumeration[i];
    var kept := Unconsumed(path, enumeration[..i]);
    var rest := enumeration[i + 1..];
    assert enumeration[i..] == [e] + rest;
    assert enumeration[..i + 1] == enumeration[..i] + [e];
    UnconsumedSnoc(path, enumeration[..i], e);
    DistinctAt(enumeration, i);
    UnconsumedKeysWithin(path, enumeration[..i]);
    VisitEntry(kept, e, rest);
    assert kept + [] == kept;
    assert kept + ([e] + rest) == (kept + [e]) + rest;
  }

  /** One iteration of the loop, seen from the working path. */
  lemma LoopStepPath(path: string, current: string, enumeration: seq<Arg>, i: nat)
    requires i < |enumeration|
    ensures Substituted(path, current, enumeration[i..])
         == Substituted(path, Step(path, current, enumeration[i]), enumeration[i + 1..])
  {
    assert enumeration[i..][1..] == enumeration[i + 1..];
  }

  /** When the loop has visited every entry, its invariants are the method's postconditions. */
  lemma LoopEnd(path: string, current: string, enumeration: seq<Arg>)
    ensures Unconsumed(path, enumeration[..|enumeration|]) + enumeration[|enumeration|..] == Unconsumed(path, enumeration)
    ensures Substituted(path, current, enumeration[|enumeration|..]) == current
  {
    assert enumeration[..|enumeration|] == enumeration;
    assert enumeration[|enumeration|..] == [];
  }

  /**
   * The loop itself: walks the keys in enumeration order, rewrites the working
   * path and deletes consumed keys from the (caller's) arguments object.
   */
  method Substitute(path: string, args: ArgsObject) returns (currentPath: string)
    requires args.Valid()
    modifies args
    ensures args.Valid()
    ensures currentPath == SubstitutedPath(path, old(args.entries))
    ensures args.entries == Unconsumed(path, old(args.entries))
  {
    currentPath := path;
    var enumeration := args.entries;
    for i := 0 to |enumeration|
      invariant args.Valid()
      invariant args.entries == Unconsumed(path, enumeration[..i]) + enumeration[i..]
      invariant Substituted(path, currentPath, enumeration[i..]) == SubstitutedPath(path, enumeration)
    {
      var key := enumeration[i].key;
      LoopStepArguments(path, enumeration, i);
      LoopStepPath(path, currentPath, enumeration, i);
      if IndexOf(path, Token(key)) >= 0 {
        var value := Lookup(args.entries, key).value;
        currentPath := ReplaceAll(currentPath, Token(key), value);
        args.Delete(key);
      }
    }
    LoopEnd(path, currentPath, enumeration);
  }
}
