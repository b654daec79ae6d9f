/**
 * Turning a plant identifier from a URL into a GBIF id: a string of digits
 * is the id itself; anything else is a slug, turned back into a name and
 * looked up in the GBIF name backbone.
 */
module BotanyUtils {
  import opened Values

  // ---------------------------------------------------------------------
  // unslugify
  // ---------------------------------------------------------------------

  /** An ASCII letter: the only characters the model treats as cased. */
  predicate IsLetter(c: char)
  {
    'a' <= c <= 'z' || 'A' <= c <= 'Z'
  }

  function Upper(c: char): (u: char)
    ensures IsLetter(c) ==> IsLetter(u) && 'A' <= u <= 'Z'
    ensures !IsLetter(c) ==> u == c
  {
    if 'a' <= c <= 'z' then (c as int - 32) as char else c
  }

  function Lower(c: char): (l: char)
    ensures IsLetter(c) ==> IsLetter(l) && 'a' <= l <= 'z'
    ensures !IsLetter(c) ==> l == c
  {
    if 'A' <= c <= 'Z' then (c as int + 32) as char else c
  }

  /** `s.replace("-", " ")`. */
  function ReplaceDashes(s: string): (t: string)
    ensures |t| == |s|
    ensures forall i :: 0 <= i < |s| ==> t[i] == (if s[i] == '-' then ' ' else s[i])
  {
    if s == [] then [] else [if s[0] == '-' then ' ' else s[0]] + ReplaceDashes(s[1..])
  }

  /**
   * `str.title()` scanning `s` with `afterLetter` telling whether the
   * character before `s` is cased: a letter after a letter is lowered, any
   * other letter is raised, and other characters are kept.
   */
  function TitleFrom(s: string, afterLetter: bool): string
  {
    if s == [] then []
    else [if !IsLetter(s[0]) then s[0] else if afterLetter then Lower(s[0]) else Upper(s[0])]
         + TitleFrom(s[1..], IsLetter(s[0]))
  }

  /** `s.title()`. */
  function Title(s: string): string
  {
    TitleFrom(s, false)
  }

  /** The character `title()` puts at position `i` of `s`, read off its neighbour on the left. */
  function TitleCharAt(s: string, i: nat): char
    requires i < |s|
  {
    if !IsLetter(s[i]) then s[i]
    else if i > 0 && IsLetter(s[i - 1]) then Lower(s[i])
    else Upper(s[i])
  }

  /**
   * `title()` works character by character: it keeps the length, and each
   * output character depends only on that input character and the one
   * before it.
   */
  lemma {:induction false} TitleFromPointwise(s: string, afterLetter: bool)
    ensures |TitleFrom(s, afterLetter)| == |s|
    ensures forall i :: 0 < i < |s| ==> TitleFrom(s, afterLetter)[i] == TitleCharAt(s, i)
    ensures |s| > 0 ==>
              TitleFrom(s, afterLetter)[0] == (if !IsLetter(s[0]) then s[0] else if afterLetter then Lower(s[0]) else Upper(s[0]))
  {
    if s != [] {
      TitleFromPointwise(s[1..], IsLetter(s[0]));
      var t := TitleFrom(s, afterLetter);
      forall i | 0 < i < |s|
        ensures t[i] == TitleCharAt(s, i)
      {
        assert t[i] == TitleFrom(s[1..], IsLetter(s[0]))[i - 1];
        assert s[1..][i - 1] == s[i];
        if i > 1 {
          assert s[1..][i - 2] == s[i - 1];
        }
      }
    }
  }

  lemma TitlePointwise(s: string)
    ensures |Title(s)| == |s|
    ensures forall i :: 0 <= i < |s| ==> Title(s)[i] == TitleCharAt(s, i)
  {
    TitleFromPointwise(s, false);
  }

  /** `unslugify(slug)`: dashes become spaces, then the words are title-cased. */
  function Unslugify(slug: string): (name: string)
    ensures |name| == |slug|
    ensures forall i :: 0 <= i < |slug| ==> name[i] != '-'
  {
    TitlePointwise(ReplaceDashes(slug));
    Title(ReplaceDashes(slug))
  }

  /**
   * `unslugify` keeps the length, leaves no dash behind, and at every
   * position puts the title-cased character of the slug (a dash read as a
   * space).
   */
  lemma UnslugifyShape(slug: string)
    ensures |Unslugify(slug)| == |slug|
    ensures forall i :: 0 <= i < |slug| ==> Unslugify(slug)[i] != '-'
    ensures forall i :: 0 <= i < |slug| ==> Unslugify(slug)[i] == TitleCharAt(ReplaceDashes(slug), i)
  {
    TitlePointwise(ReplaceDashes(slug));
  }

  /** A name that is already unslugified comes back unchanged. */
  lemma UnslugifyIdempotent(slug: string)
    ensures Unslugify(Unslugify(slug)) == Unslugify(slug)
  {
    var u := Unslugify(slug);
    var d := ReplaceDashes(slug);
    UnslugifyShape(slug);
    UnslugifyShape(u);
    TitlePointwise(d);
    assert ReplaceDashes(u) == u;
    forall i | 0 <= i < |u|
      ensures IsLetter(u[i]) == IsLetter(d[i])
    {
    }
    forall i | 0 <= i < |u|
      ensures Unslugify(u)[i] == u[i]
    {
      assert Unslugify(u)[i] == TitleCharAt(u, i);
      if i > 0 {
        assert IsLetter(u[i - 1]) == IsLetter(d[i - 1]);
      }
    }
  }

  // ---------------------------------------------------------------------
  // resolve_gbif_id
  // ---------------------------------------------------------------------

  /** Why `resolve_gbif_id` raises: no identifier, or the backbone call itself raised. */
  datatype ResolveError = NoIdentifier | BackboneFailure

  /**
   * `species.name_backbone(name)`: the response object, or `None` when the
   * call raises. Its definition is not part of this model.
   */
  type Backbone = string -> Option<map<string, Json>>

  /**
   * `resolve_gbif_id(identifier)`. `None` raises `ValueError`; digits are
   * read as the id; anything else is unslugified and looked up, and the
   * lookup's `usageKey` is the answer when the response and the key are
   * both truthy.
   */
  function ResolveGbifId(identifier: Option<string>, backbone: Backbone): (r: Result<Option<Json>, ResolveError>)
    ensures r == Err(NoIdentifier) <==> identifier.None?
    ensures r == Err(BackboneFailure) ==> identifier.Some? && !IsDigitString(identifier.value)
    ensures r.Ok? && r.value.Some? && !IsDigitString(identifier.value) ==> Truthy(r.value.value)
  {
    if identifier.None? then Err(NoIdentifier)
    else if IsDigitString(identifier.value) then Ok(Some(JInt(DecimalValue(identifier.value))))
    else
      match backbone(Unslugify(identifier.value))
      case None => Err(BackboneFailure)
      case Some(result) =>
        if |result| > 0 && Truthy(Get(result, "usageKey")) then Ok(Some(result["usageKey"])) else Ok(None)
  }

  /** A string of digits is the id it spells, and the backbone is never consulted. */
  lemma DigitsNeedNoLookup(identifier: string, b1: Backbone, b2: Backbone)
    requires IsDigitString(identifier)
    ensures ResolveGbifId(Some(identifier), b1) == ResolveGbifId(Some(identifier), b2)
    ensures ResolveGbifId(Some(identifier), b1) == Ok(Some(JInt(DecimalValue(identifier))))
  {
  }

  /** The decimal spelling of an id resolves to that id. */
  lemma DecimalIdResolves(n: nat, b: Backbone)
    ensures ResolveGbifId(Some(Decimal(n)), b) == Ok(Some(JInt(n)))
  {
    DecimalRoundTrip(n);
  }

  /**
   * Any other identifier is answered by looking up its unslugified form:
   * two backbones that agree on that name give the same answer.
   */
  lemma SlugLooksUpUnslugified(identifier: string, b1: Backbone, b2: Backbone)
    requires !IsDigitString(identifier)
    requires b1(Unslugify(identifier)) == b2(Unslugify(identifier))
    ensures ResolveGbifId(Some(identifier), b1) == ResolveGbifId(Some(identifier), b2)
  {
  }

  /** A falsy `usageKey` — missing, null or `0` — resolves to no id. */
  lemma FalsyUsageKeyIsNone(identifier: string, b: Backbone)
    requires !IsDigitString(identifier)
    requires b(Unslugify(identifier)).Some? && !Truthy(Get(b(Unslugify(identifier)).value, "usageKey"))
    ensures ResolveGbifId(Some(identifier), b) == Ok(None)
  {
  }

  /** A truthy `usageKey` is returned as it is. */
  lemma TruthyUsageKeyIsReturned(identifier: string, b: Backbone)
    requires !IsDigitString(identifier)
    requires b(Unslugify(identifier)).Some? && Truthy(Get(b(Unslugify(identifier)).value, "usageKey"))
    ensures ResolveGbifId(Some(identifier), b) == Ok(Some(b(Unslugify(identifier)).value["usageKey"]))
  {
  }
}
