/**
  Search terms in LIKE patterns (src/utils/escape-like.ts): escaped, a term means exactly what was
  typed; left alone, it does so only when it holds no special character.
 */
module LikePattern {
  import opened Options

  predicate IsSpecial(c: char) {
    c == '\\' || c == '%' || c == '_'
  }

  function EscapeLike(term: string): string {
    if term == "" then ""
    else (if IsSpecial(term[0]) then ['\\', term[0]] else [term[0]]) + EscapeLike(term[1..])
  }

  // ---- LIKE, as the database reads it -----------------------------------------------------------

  datatype Item = AnyRun | AnyOne | Literal(c: char)

  /** None for a pattern that ends in the escape character, which the database refuses. */
  function Parse(pattern: string): Option<seq<Item>> {
    if pattern == "" then Some([])
    else if pattern[0] == '\\' then
      if |pattern| == 1 then None
      else
        var rest := Parse(pattern[2..]);
        if rest.None? then None else Some([Literal(pattern[1])] + rest.value)
    else
      var rest := Parse(pattern[1..]);
      if rest.None? then None
      else Some([ItemOf(pattern[0])] + rest.value)
  }

  /** `fold` is the identity for LIKE and lower-casing for ILIKE. */
  predicate Matches(s: string, items: seq<Item>, fold: char -> char)
    decreases |items|, |s|
  {
    if items == [] then s == ""
    else match items[0]
      case AnyRun => Matches(s, items[1..], fold) || (s != "" && Matches(s[1..], items, fold))
      case AnyOne => s != "" && Matches(s[1..], items[1..], fold)
      case Literal(c) => s != "" && fold(s[0]) == fold(c) && Matches(s[1..], items[1..], fold)
  }

  predicate Like(s: string, pattern: string, fold: char -> char) {
    Parse(pattern).Some? && Matches(s, Parse(pattern).value, fold)
  }

  /** The pattern Prisma's `contains` builds. */
  function ContainsPattern(term: string): string {
    "%" + term + "%"
  }

  predicate OccursAt(s: string, t: string, i: nat, fold: char -> char) {
    i + |t| <= |s| && forall k :: 0 <= k < |t| ==> fold(s[i + k]) == fold(t[k])
  }

  // ---- escaped terms --------------------------------------------------------------------------

  function Literals(t: string): seq<Item> {
    seq(|t|, i requires 0 <= i < |t| => Literal(t[i]))
  }

  function ItemOf(c: char): Item {
    if c == '%' then AnyRun else if c == '_' then AnyOne else Literal(c)
  }

  lemma ParseEscaped(c: char, rest: string)
    requires Parse(rest).Some?
    ensures Parse(['\\', c] + rest) == Some([Literal(c)] + Parse(rest).value)
  {
    assert (['\\', c] + rest)[2..] == rest;
  }

  lemma ParseOther(c: char, rest: string)
    requires c != '\\' && Parse(rest).Some?
    ensures Parse([c] + rest) == Some([ItemOf(c)] + Parse(rest).value)
  {
    assert ([c] + rest)[1..] == rest;
  }

  /** Escaping a term and reading it as a pattern gives the term back, letter by letter. */
  lemma {:induction false} EscapedParses(t: string, tail: string)
    requires Parse(tail).Some?
    ensures Parse(EscapeLike(t) + tail) == Some(Literals(t) + Parse(tail).value)
  {
    hide Parse;
    if t == "" {
      assert EscapeLike(t) + tail == tail;
      assert Literals(t) + Parse(tail).value == Parse(tail).value;
    } else {
      EscapedParses(t[1..], tail);
      var rest := EscapeLike(t[1..]) + tail;
      assert Literals(t) + Parse(tail).value == [Literal(t[0])] + (Literals(t[1..]) + Parse(tail).value);
      if IsSpecial(t[0]) {
        assert EscapeLike(t) + tail == ['\\', t[0]] + rest;
        ParseEscaped(t[0], rest);
      } else {
        assert EscapeLike(t) + tail == [t[0]] + rest;
        ParseOther(t[0], rest);
      }
    }
  }

  lemma {:induction false} AnyRunMatchesAll(s: string, fold: char -> char)
    ensures Matches(s, [AnyRun], fold)
  {
    if s != "" { AnyRunMatchesAll(s[1..], fold); }
  }

  lemma {:induction false} LiteralsMatchPrefix(s: string, t: string, fold: char -> char)
    ensures Matches(s, Literals(t) + [AnyRun], fold) <==> OccursAt(s, t, 0, fold)
  {
    if t == "" {
      assert Literals(t) + [AnyRun] == [AnyRun];
      AnyRunMatchesAll(s, fold);
    } else {
      var items := Literals(t) + [AnyRun];
      assert items[1..] == Literals(t[1..]) + [AnyRun];
      if s != "" {
        LiteralsMatchPrefix(s[1..], t[1..], fold);
        if OccursAt(s, t, 0, fold) {
          assert forall k :: 0 <= k < |t[1..]| ==> s[1..][0 + k] == s[0 + (k + 1)] && t[1..][k] == t[k + 1];
        }
        if OccursAt(s[1..], t[1..], 0, fold) && fold(s[0]) == fold(t[0]) {
          forall k | 0 <= k < |t| ensures fold(s[0 + k]) == fold(t[k]) {
            if k > 0 { assert fold(s[1..][0 + (k - 1)]) == fold(t[1..][k - 1]); }
          }
        }
      }
    }
  }

  lemma {:induction false} LeadingRun(s: string, items: seq<Item>, fold: char -> char)
    ensures Matches(s, [AnyRun] + items, fold) <==> exists i :: 0 <= i <= |s| && Matches(s[i..], items, fold)
  {
    assert ([AnyRun] + items)[1..] == items;
    assert s[0..] == s;
    if s != "" {
      LeadingRun(s[1..], items, fold);
      forall i | 1 <= i <= |s| ensures s[i..] == s[1..][i - 1..] {}
      if exists i :: 0 <= i <= |s[1..]| && Matches(s[1..][i..], items, fold) {
        var i :| 0 <= i <= |s[1..]| && Matches(s[1..][i..], items, fold);
        assert s[i + 1..] == s[1..][i..];
      }
    }
  }

  /** A search finds exactly the texts in which the typed term occurs, whatever characters it holds. */
  lemma SearchFindsExactly(s: string, t: string, fold: char -> char)
    ensures Like(s, ContainsPattern(EscapeLike(t)), fold) <==> exists i :: OccursAt(s, t, i, fold)
  {
    var items := Literals(t) + [AnyRun];
    var pattern := ContainsPattern(EscapeLike(t));
    hide Matches;
    ParseOther('%', "");
    assert "%" == ['%'] + "";
    EscapedParses(t, "%");
    ParseOther('%', EscapeLike(t) + "%");
    assert pattern == ['%'] + (EscapeLike(t) + "%");
    assert Parse("%") == Some([AnyRun]) by { ParseNothing(); assert [AnyRun] + [] == [AnyRun]; }
    assert Parse(pattern) == Some([AnyRun] + items);
    LeadingRun(s, items, fold);
    forall i: nat | i <= |s| ensures Matches(s[i..], items, fold) <==> OccursAt(s, t, i, fold) {
      LiteralsMatchPrefix(s[i..], t, fold);
      Shifted(s, t, i, fold);
    }
  }

  lemma Shifted(s: string, t: string, i: nat, fold: char -> char)
    requires i <= |s|
    ensures OccursAt(s[i..], t, 0, fold) <==> OccursAt(s, t, i, fold)
  {
    if OccursAt(s[i..], t, 0, fold) {
      forall k | 0 <= k < |t| ensures fold(s[i + k]) == fold(t[k]) { assert fold(s[i..][0 + k]) == fold(t[k]); }
    }
    if OccursAt(s, t, i, fold) {
      forall k | 0 <= k < |t| ensures fold(s[i..][0 + k]) == fold(t[k]) { assert fold(s[i + k]) == fold(t[k]); }
    }
  }

  // ---- terms left alone -----------------------------------------------------------------------

  predicate IsPlain(t: string) {
    forall i :: 0 <= i < |t| ==> !IsSpecial(t[i])
  }

  lemma {:induction false} PlainIsUnchanged(t: string)
    requires IsPlain(t)
    ensures EscapeLike(t) == t
  {
    if t != "" { PlainIsUnchanged(t[1..]); }
  }

  /** The shortest text that a term matches when it is read as a pattern followed by `%`. */
  function Shortest(t: string): string {
    if t == "" then ""
    else if t[0] == '\\' then (if |t| == 1 then "%" else [t[1]] + Shortest(t[2..]))
    else (if t[0] == '%' then "" else if t[0] == '_' then "x" else [t[0]]) + Shortest(t[1..])
  }

  lemma {:induction false} ShortestIsOther(t: string)
    ensures |Shortest(t)| <= |t|
    ensures Shortest(t) == t ==> IsPlain(t)
  {
    if t != "" {
      if t[0] == '\\' {
        if |t| > 1 { ShortestIsOther(t[2..]); }
      } else {
        ShortestIsOther(t[1..]);
        if Shortest(t) == t {
          if t[0] != '%' { assert Shortest(t)[1..] == Shortest(t[1..]); }
        }
      }
    }
  }

  lemma {:induction false} ShortestMatches(t: string, fold: char -> char)
    ensures Like(Shortest(t), t + "%", fold)
  {
    hide Parse, Shortest;
    var p := t + "%";
    if t == "" {
      ParseNothing();
      ParseOther('%', "");
      assert p == ['%'] + "";
      AnyRunMatchesAll("", fold);
    } else if t[0] == '\\' {
      ShortestStep(t);
      if |t| == 1 {
        ParseNothing();
        ParseEscaped('%', "");
        assert p == ['\\', '%'] + "";
        FirstMatches(Literal('%'), "%", "", [], fold);
        assert "%" + "" == "%" && [Literal('%')] + [] == [Literal('%')];
      } else {
        ShortestMatches(t[2..], fold);
        ParseEscaped(t[1], t[2..] + "%");
        assert p == ['\\', t[1]] + (t[2..] + "%");
        FirstMatches(Literal(t[1]), [t[1]], Shortest(t[2..]), Parse(t[2..] + "%").value, fold);
      }
    } else {
      ShortestStep(t);
      ShortestMatches(t[1..], fold);
      ParseOther(t[0], t[1..] + "%");
      assert p == [t[0]] + (t[1..] + "%");
      FirstMatches(ItemOf(t[0]), if t[0] == '%' then "" else if t[0] == '_' then "x" else [t[0]],
                   Shortest(t[1..]), Parse(t[1..] + "%").value, fold);
    }
  }

  lemma ParseNothing()
    ensures Parse("") == Some([]) && Shortest("") == ""
  {}

  lemma ShortestStep(t: string)
    requires t != ""
    ensures Shortest(t) ==
      if t[0] == '\\' then (if |t| == 1 then "%" else [t[1]] + Shortest(t[2..]))
      else (if t[0] == '%' then "" else if t[0] == '_' then "x" else [t[0]]) + Shortest(t[1..])
  {}

  /** An item followed by others matches what it matches followed by what they match. */
  lemma FirstMatches(item: Item, first: string, s: string, items: seq<Item>, fold: char -> char)
    requires Matches(s, items, fold)
    requires match item case AnyRun => first == "" case AnyOne => |first| == 1 case Literal(c) => first == [c]
    ensures Matches(first + s, [item] + items, fold)
  {
    assert ([item] + items)[1..] == items;
    if first == "" { assert first + s == s; } else { assert (first + s)[1..] == s; }
  }

  lemma OccursInShorter(s: string, t: string, i: nat, fold: char -> char)
    requires |s| <= |t| && forall c :: fold(c) == c
    ensures OccursAt(s, t, i, fold) ==> s == t
  {
    assert OccursAt(s, t, i, fold) ==> i == 0 && forall k :: 0 <= k < |t| ==> s[0 + k] == t[k];
  }

  /** Without escaping, a term finds exactly the texts it occurs in if and only if it holds no special character. */
  lemma EscapingIsNeeded(t: string, fold: char -> char)
    requires forall c :: fold(c) == c
    ensures IsPlain(t) <==> forall s :: Like(s, ContainsPattern(t), fold) <==> exists i :: OccursAt(s, t, i, fold)
  {
    if IsPlain(t) {
      PlainIsUnchanged(t);
      forall s ensures Like(s, ContainsPattern(t), fold) <==> exists i :: OccursAt(s, t, i, fold) {
        SearchFindsExactly(s, t, fold);
      }
    } else {
      var s := Shortest(t);
      ShortestIsOther(t);
      ShortestMatches(t, fold);
      ParseOther('%', t + "%");
      assert ContainsPattern(t) == ['%'] + (t + "%");
      FirstMatches(AnyRun, "", s, Parse(t + "%").value, fold);
      assert "" + s == s;
      assert Like(s, ContainsPattern(t), fold);
      forall i: nat ensures !OccursAt(s, t, i, fold) {
        OccursInShorter(s, t, i, fold);
      }
    }
  }
}
