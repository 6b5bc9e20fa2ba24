/**
 * The organization form of the admin console (`admin_console/services/org_service.py`):
 * an organization is printed into text fields and the edited fields are applied
 * back to it.
 */
module OrgForm {
  import opened Prelude
  import opened Text

  // ------------------------------------------------------------- integers

  /** `str(n)` for any integer. */
  function IntText(n: int): string {
    if n < 0 then "-" + Decimal(-n) else Decimal(n)
  }

  function Signed(negative: bool, n: nat): int {
    var m: int := n;
    if negative then -m else m
  }

  /** `int(s)` on ASCII text: optional white space and sign around digits. */
  function ParseInt(s: string): Option<int> {
    var t := Strip(s);
    if t != "" && (t[0] == '-' || t[0] == '+') then
      if IsDigits(t[1..]) then Some(Signed(t[0] == '-', ParseDigits(t[1..]))) else None
    else if IsDigits(t) then Some(ParseDigits(t))
    else None
  }

  lemma PaddingIsIgnored(before: string, t: string, after: string)
    requires AllSpace(before) && Trimmed(t) && AllSpace(after)
    ensures ParseInt(before + t + after) == ParseInt(t)
  {
    StripPadded(before, t, after);
    StripTrimmed(t);
  }

  lemma SignedDigits(digits: string)
    requires IsDigits(digits)
    ensures var n: int := ParseDigits(digits);
            ParseInt(digits) == Some(n) && ParseInt("+" + digits) == Some(n) && ParseInt("-" + digits) == Some(-n)
    ensures Trimmed("+" + digits) && Trimmed("-" + digits)
  {
    DigitsAreTrimmed(digits);
    StripTrimmed(digits);
    StripTrimmed("+" + digits);
    StripTrimmed("-" + digits);
    assert ("+" + digits)[1..] == digits && ("-" + digits)[1..] == digits;
  }

  /** What reads as an integer: digits, with a sign or not, and white space around. */
  lemma ParseIntOutright(before: string, digits: string, after: string)
    requires AllSpace(before) && IsDigits(digits) && AllSpace(after)
    ensures var n: int := ParseDigits(digits);
            && ParseInt(before + digits + after) == Some(n)
            && ParseInt(before + ("+" + digits) + after) == Some(n)
            && ParseInt(before + ("-" + digits) + after) == Some(-n)
  {
    DigitsAreTrimmed(digits);
    SignedDigits(digits);
    PaddingIsIgnored(before, digits, after);
    PaddingIsIgnored(before, "+" + digits, after);
    PaddingIsIgnored(before, "-" + digits, after);
  }

  /** And nothing else does. */
  lemma OnlyIntegersParse(s: string)
    ensures ParseInt(s).Some? ==>
              || IsDigits(Strip(s))
              || (Strip(s) != "" && Strip(s)[0] in {'+', '-'} && IsDigits(Strip(s)[1..]))
  {}

  lemma IntRoundTrip(n: int)
    ensures ParseInt(IntText(n)) == Some(n)
    ensures if n < 0 then IntText(n)[0] == '-' && IsDigits(IntText(n)[1..]) else IsDigits(IntText(n))
  {
    var digits := Decimal(if n < 0 then -n else n);
    DigitsAreTrimmed(digits);
    StripTrimmed(IntText(n));
    if n < 0 {
      assert IntText(n)[1..] == digits;
    }
  }

  // ------------------------------------------------------------- providers

  function KeepNonEmpty(parts: seq<string>): (r: seq<string>)
    ensures forall p | p in r :: exists q :: q in parts && p == Strip(q) && p != ""
  {
    if parts == [] then []
    else if Strip(parts[0]) != "" then [Strip(parts[0])] + KeepNonEmpty(parts[1..])
    else KeepNonEmpty(parts[1..])
  }

  /** Comma-separated text to a list; nothing at all means the local provider. */
  function ParseProviders(value: string): (r: seq<string>)
    ensures r != []
  {
    var parts := KeepNonEmpty(Split(value, ','));
    if parts != [] then parts else ["local"]
  }

  predicate PlainProvider(p: string) { p != "" && Trimmed(p) && ',' !in p }

  lemma {:induction false} StripLeftSubset(s: string, c: char)
    requires c !in s
    ensures c !in StripLeft(s)
  {
    if s != "" && IsSpace(s[0]) {
      StripLeftSubset(s[1..], c);
    }
  }

  lemma {:induction false} StripRightSubset(s: string, c: char)
    requires c !in s
    ensures c !in StripRight(s)
  {
    if s != "" && IsSpace(s[|s| - 1]) {
      StripRightSubset(s[..|s| - 1], c);
    }
  }

  lemma ParsedProvidersArePlain(value: string)
    ensures forall p | p in ParseProviders(value) :: PlainProvider(p)
  {
    var parts := Split(value, ',');
    forall p | p in ParseProviders(value)
      ensures PlainProvider(p)
    {
      if KeepNonEmpty(parts) != [] {
        var q :| q in parts && p == Strip(q) && p != "";
        StripLeftSubset(q, ',');
        StripRightSubset(StripLeft(q), ',');
      }
    }
  }

  /** The pieces between commas of a list joined with a comma and a space. */
  function Pieces(ps: seq<string>): (r: seq<string>)
    ensures |r| == |ps|
  {
    seq(|ps|, i requires 0 <= i < |ps| => if i == 0 then ps[0] else " " + ps[i])
  }

  lemma SplitAfterSpace(s: string)
    ensures Split(" " + s, ',') == [" " + Split(s, ',')[0]] + Split(s, ',')[1..]
  {
    assert (" " + s)[1..] == s;
  }

  lemma PiecesStep(ps: seq<string>)
    requires |ps| > 1
    ensures Pieces(ps) == [ps[0]] + ([" " + Pieces(ps[1..])[0]] + Pieces(ps[1..])[1..])
  {}

  lemma {:induction false} SplitJoined(ps: seq<string>)
    requires ps != [] && forall p | p in ps :: ',' !in p
    ensures Split(Join(ps, ", "), ',') == Pieces(ps)
  {
    if |ps| == 1 {
      SplitWithout(ps[0], ',');
    } else {
      var rest := Join(ps[1..], ", ");
      assert Join(ps, ", ") == ps[0] + [','] + (" " + rest);
      assert ps[0] in ps;
      SplitAtDelimiter(ps[0], ',', " " + rest);
      SplitJoined(ps[1..]);
      SplitAfterSpace(rest);
      PiecesStep(ps);
    }
  }

  lemma {:induction false} KeepPieces(parts: seq<string>, ps: seq<string>)
    requires |parts| == |ps| && forall p | p in ps :: PlainProvider(p)
    requires forall i | 0 <= i < |ps| :: parts[i] == ps[i] || parts[i] == " " + ps[i]
    ensures KeepNonEmpty(parts) == ps
  {
    if ps != [] {
      assert PlainProvider(ps[0]);
      StripTrimmed(ps[0]);
      assert " " + ps[0] == " " + ps[0] + "";
      StripPadded(" ", ps[0], "");
      KeepPieces(parts[1..], ps[1..]);
    }
  }

  /**
   * Printing a provider list and parsing it again gives the list back exactly
   * when it is not empty and every provider is a non-empty, trimmed name
   * without a comma.
   */
  lemma ProvidersRoundTripExactly(ps: seq<string>)
    ensures ParseProviders(Join(ps, ", ")) == ps <==> ps != [] && forall p | p in ps :: PlainProvider(p)
  {
    if ps != [] && forall p | p in ps :: PlainProvider(p) {
      SplitJoined(ps);
      KeepPieces(Pieces(ps), ps);
    }
    ParsedProvidersArePlain(Join(ps, ", "));
  }

  // -------------------------------------------------------------- the form

  datatype FieldValue = NoValue | TextValue(s: string) | Flag(b: bool)

  datatype Attribute = IntAttr(n: int) | TextAttr(s: string) | FlagAttr(b: bool) | ListAttr(items: seq<string>) | Unset

  /** The organization object: its attributes by name. */
  type Org = map<string, Attribute>

  const SKIPPED: set<string> := {"id", "created_at", "updated_at"}
  const INT_FIELDS: set<string> := {"agent_timeout_seconds", "max_context_tokens", "port"}

  function ApplyField(org: Org, key: string, value: FieldValue): Org {
    if key in SKIPPED || value == NoValue then org
    else if key == "auth_providers" && value.TextValue? then org[key := ListAttr(ParseProviders(value.s))]
    else if key in INT_FIELDS then
      var parsed := if value.TextValue? then ParseInt(value.s) else Some(if value.b then 1 else 0);
      if parsed.Some? then org[key := IntAttr(parsed.value)] else org
    else if key == "is_active" && value.TextValue? then
      org[key := FlagAttr(Lower(value.s) != "false" && Lower(value.s) != "0" && Lower(value.s) != "")]
    else org[key := if value.TextValue? then TextAttr(value.s) else FlagAttr(value.b)]
  }

  function ApplyFields(org: Org, fields: seq<(string, FieldValue)>): Org
    decreases |fields|
  {
    if fields == [] then org else ApplyFields(ApplyField(org, fields[0].0, fields[0].1), fields[1..])
  }

  lemma {:induction false} KeepAppend(a: seq<string>, b: seq<string>)
    ensures KeepNonEmpty(a + b) == KeepNonEmpty(a) + KeepNonEmpty(b)
  {
    if a == [] {
      assert a + b == b;
    } else {
      assert (a + b)[1..] == a[1..] + b;
      KeepAppend(a[1..], b);
    }
  }

  /** The names between commas, one after the other: each stripped, and left out if nothing remains. */
  lemma ProvidersOutright(name: string, rest: string)
    requires ',' !in name
    ensures Strip(name) == "" ==> ParseProviders(name) == ["local"] && ParseProviders(name + [','] + rest) == ParseProviders(rest)
    ensures Strip(name) != "" ==> ParseProviders(name) == [Strip(name)]
    ensures Strip(name) != "" ==>
              ParseProviders(name + [','] + rest)
              == [Strip(name)] + (if KeepNonEmpty(Split(rest, ',')) == [] then [] else ParseProviders(rest))
  {
    SplitWithout(name, ',');
    SplitAtDelimiter(name, ',', rest);
    KeepAppend([name], Split(rest, ','));
    assert KeepNonEmpty([name]) == if Strip(name) != "" then [Strip(name)] else [];
  }

  /** What each field of a form does to the organization, field by field. */
  lemma ApplyFieldOutright(org: Org, key: string, value: FieldValue)
    ensures key in {"id", "created_at", "updated_at"} || value == NoValue ==> ApplyField(org, key, value) == org
    ensures key == "auth_providers" && value.TextValue? ==>
              ApplyField(org, key, value) == org[key := ListAttr(ParseProviders(value.s))]
    ensures key in {"agent_timeout_seconds", "max_context_tokens", "port"} && value.TextValue? ==>
              ApplyField(org, key, value)
              == match ParseInt(value.s) case Some(n) => org[key := IntAttr(n)] case None => org
    ensures key in {"agent_timeout_seconds", "max_context_tokens", "port"} && value.Flag? ==>
              ApplyField(org, key, value) == org[key := IntAttr(if value.b then 1 else 0)]
    ensures key == "is_active" && value.TextValue? ==>
              ApplyField(org, key, value) == org[key := FlagAttr(Lower(value.s) !in {"false", "0", ""})]
    ensures key !in {"id", "created_at", "updated_at", "auth_providers", "agent_timeout_seconds",
                     "max_context_tokens", "port", "is_active"} && value.TextValue? ==>
              ApplyField(org, key, value) == org[key := TextAttr(value.s)]
    ensures value.Flag? && key !in {"id", "created_at", "updated_at", "agent_timeout_seconds", "max_context_tokens", "port"} ==>
              ApplyField(org, key, value) == org[key := FlagAttr(value.b)]
  {}

  method ApplyOrgFields(org: Org, fields: seq<(string, FieldValue)>) returns (r: Org)
    ensures r == ApplyFields(org, fields)
  {
    r := org;
    for i := 0 to |fields|
      invariant ApplyFields(r, fields[i..]) == ApplyFields(org, fields)
    {
      assert fields[i..][1..] == fields[i + 1..];
      r := ApplyField(r, fields[i].0, fields[i].1);
    }
  }

  /** What the form shows: `str(n)`, `", ".join(...)`, and `value or ""` for text. */
  function Printed(a: Attribute): FieldValue {
    match a
    case IntAttr(n) => TextValue(IntText(n))
    case TextAttr(s) => TextValue(s)
    case FlagAttr(b) => Flag(b)
    case ListAttr(items) => TextValue(Join(items, ", "))
    case Unset => TextValue("")
  }

  /** The attribute's kind is the one its name calls for. */
  predicate WellTyped(key: string, a: Attribute) {
    if key in INT_FIELDS then a.IntAttr?
    else if key == "auth_providers" then a.ListAttr?
    else if key == "is_active" then a.FlagAttr?
    else a.TextAttr? || a.FlagAttr? || a.Unset?
  }

  /** The attribute reads back from its printed form. */
  predicate ReadsBack(a: Attribute) {
    && !a.Unset?
    && (a.ListAttr? ==> a.items != [] && forall p | p in a.items :: PlainProvider(p))
  }

  /** What an attribute becomes when its printed form is applied to it. */
  function Reread(key: string, a: Attribute): Attribute
    requires WellTyped(key, a)
  {
    if a.ListAttr? then ListAttr(ParseProviders(Join(a.items, ", ")))
    else if a.Unset? then TextAttr("")
    else a
  }

  lemma ApplyPrinted(org: Org, key: string, a: Attribute)
    requires WellTyped(key, a) && key !in SKIPPED
    ensures ApplyField(org, key, Printed(a)) == org[key := Reread(key, a)]
  {
    if a.IntAttr? {
      IntRoundTrip(a.n);
    }
  }

  lemma RereadSame(key: string, a: Attribute)
    requires WellTyped(key, a)
    ensures Reread(key, a) == a <==> ReadsBack(a)
  {
    if a.ListAttr? {
      ProvidersRoundTripExactly(a.items);
    }
  }

  /**
   * Re-applying one printed field leaves it unchanged, except for a provider
   * list that does not read back and a missing text, which becomes empty text.
   */
  lemma FieldRoundTrip(org: Org, key: string)
    requires key in org && WellTyped(key, org[key])
    ensures ApplyField(org, key, Printed(org[key])) == org <==>
              key in SKIPPED || ReadsBack(org[key])
  {
    var a := org[key];
    if key !in SKIPPED {
      ApplyPrinted(org, key, a);
      RereadSame(key, a);
      assert org[key := Reread(key, a)][key] == Reread(key, a);
      assert org[key := a] == org;
    }
  }

  /** An untouched form: the printed fields of the organization, in some order. */
  function Form(org: Org, keys: seq<string>): (r: seq<(string, FieldValue)>)
    requires forall k | k in keys :: k in org
    ensures |r| == |keys|
  {
    if keys == [] then [] else [(keys[0], Printed(org[keys[0]]))] + Form(org, keys[1..])
  }

  /** The form of one organization applied to another sets its own fields and no other. */
  lemma {:induction false} FormSets(shown: Org, org: Org, keys: seq<string>, k: string)
    requires forall x | x in keys :: x in shown && WellTyped(x, shown[x])
    requires k in org
    ensures k in ApplyFields(org, Form(shown, keys))
    ensures ApplyFields(org, Form(shown, keys))[k]
         == if k in keys && k !in SKIPPED then Reread(k, shown[k]) else org[k]
    decreases |keys|
  {
    if keys != [] {
      var key := keys[0];
      assert key in keys;
      if key !in SKIPPED {
        ApplyPrinted(org, key, shown[key]);
      }
      FormSets(shown, ApplyField(org, key, Printed(shown[key])), keys[1..], k);
    }
  }

  lemma {:induction false} FormAddsNothing(shown: Org, org: Org, keys: seq<string>)
    requires forall x | x in keys :: x in shown && WellTyped(x, shown[x])
    requires forall x | x in keys :: x in org
    ensures ApplyFields(org, Form(shown, keys)).Keys == org.Keys
    decreases |keys|
  {
    if keys != [] {
      var key := keys[0];
      assert key in keys;
      if key !in SKIPPED {
        ApplyPrinted(org, key, shown[key]);
      }
      FormAddsNothing(shown, ApplyField(org, key, Printed(shown[key])), keys[1..]);
    }
  }

  /**
   * Saving an untouched form leaves the organization as it is exactly when
   * every field in it is skipped or reads back.
   */
  lemma UntouchedFormChangesNothing(org: Org, keys: seq<string>)
    requires forall k | k in keys :: k in org && WellTyped(k, org[k])
    ensures ApplyFields(org, Form(org, keys)) == org <==>
              forall k | k in keys :: k in SKIPPED || ReadsBack(org[k])
  {
    var saved := ApplyFields(org, Form(org, keys));
    FormAddsNothing(org, org, keys);
    forall k | k in org
      ensures saved[k] == org[k] <==> (k in keys ==> k in SKIPPED || ReadsBack(org[k]))
    {
      FormSets(org, org, keys, k);
      if k in keys && org[k].ListAttr? {
        ProvidersRoundTripExactly(org[k].items);
      }
    }
  }
}
