/**
 * The rows of a bulk import (`curator/cli.py`): expiry tokens, parsing a row
 * into a specification, and printing one so that it parses back.
 */
module BulkRows {
  import opened Prelude
  import opened Text

  // --------------------------------------------------------------- expiry

  const EXPIRY_NEVER: set<string> := {"", "never", "none", "permanent", "perm", "0"}

  function UnitDays(unit: char): nat {
    match unit
    case 'd' => 1
    case 'w' => 7
    case 'm' => 30
    case 'y' => 365
    case _ => 0
  }

  /** Digits, optional white space, and a unit letter. */
  predicate HasUnit(token: string) {
    token != "" && UnitDays(token[|token| - 1]) > 0 && IsDigits(StripRight(token[..|token| - 1]))
  }

  function AtLeastOneDay(days: nat): Result<Option<nat>> {
    if days < 1 then Err("expiry must resolve to at least 1 day") else Ok(Some(days))
  }

  function ParseExpiry(raw: string): Result<Option<nat>> {
    var token := Lower(Strip(raw));
    if token in EXPIRY_NEVER then Ok(None)
    else if HasUnit(token) then
      AtLeastOneDay(ParseDigits(StripRight(token[..|token| - 1])) * UnitDays(token[|token| - 1]))
    else if IsDigits(token) then AtLeastOneDay(ParseDigits(token))
    else Err("invalid expiry")
  }

  lemma LowerDigits(s: string)
    requires IsDigits(s)
    ensures Lower(s) == s
  {}

  lemma StripRightTrimmed(s: string)
    requires Trimmed(s)
    ensures StripRight(s) == s
  {}

  lemma NotNever(token: string)
    requires token != "" && IsDigit(token[0]) && (token[0] != '0' || |token| > 1)
    ensures token !in EXPIRY_NEVER
  {
    assert "never"[0] == 'n' && "none"[0] == 'n' && "permanent"[0] == 'p' && "perm"[0] == 'p' && "0"[0] == '0';
  }

  lemma DigitsAreTheirToken(s: string)
    requires IsDigits(s)
    ensures Lower(Strip(s)) == s
  {
    DigitsAreTrimmed(s);
    StripTrimmed(s);
    LowerDigits(s);
  }

  lemma DigitIsNoUnit(token: string)
    requires IsDigits(token)
    ensures !HasUnit(token)
  {
    assert IsDigit(token[|token| - 1]);
  }

  /** A plain number of days. */
  lemma ExpiryOfNumber(n: nat)
    requires n >= 1
    ensures ParseExpiry(Decimal(n)) == Ok(Some(n))
  {
    var s := Decimal(n);
    DigitsAreTheirToken(s);
    DigitIsNoUnit(s);
    assert IsDigit(s[0]);
    NotNever(s);
  }

  lemma UnitIsNoSpace(unit: char)
    requires unit in {'d', 'D', 'w', 'W', 'm', 'M', 'y', 'Y'}
    ensures !IsSpace(unit)
    ensures UnitDays(LowerChar(unit)) == if unit in {'d', 'D'} then 1 else if unit in {'w', 'W'} then 7
                                         else if unit in {'m', 'M'} then 30 else 365
  {}

  lemma LowerOfToken(s: string, gap: string, unit: char)
    requires IsDigits(s) && AllSpace(gap)
    ensures Lower(s + gap + [unit]) == s + gap + [LowerChar(unit)]
  {}

  /** Digits, white space and a unit letter in either case, with white space around. */
  lemma ExpiryOfUnit(before: string, s: string, gap: string, unit: char, after: string)
    requires AllSpace(before) && IsDigits(s) && ParseDigits(s) >= 1 && AllSpace(gap) && AllSpace(after)
    requires unit in {'d', 'D', 'w', 'W', 'm', 'M', 'y', 'Y'}
    ensures ParseExpiry(before + (s + gap + [unit]) + after)
         == Ok(Some(ParseDigits(s) * (if unit in {'d', 'D'} then 1 else if unit in {'w', 'W'} then 7
                                      else if unit in {'m', 'M'} then 30 else 365)))
  {
    var shown, token := s + gap + [unit], s + gap + [LowerChar(unit)];
    UnitIsNoSpace(unit);
    DigitIsNotSpace(s[0]);
    assert shown[0] == s[0] && shown[|shown| - 1] == unit && token[0] == s[0];
    StripPadded(before, shown, after);
    LowerOfToken(s, gap, unit);
    assert token[..|token| - 1] == s + gap;
    DigitIsNotSpace(s[|s| - 1]);
    StripRightPadded(s, gap);
    NotNever(token);
    PositiveProduct(ParseDigits(s), UnitDays(LowerChar(unit)));
  }

  /** What means no expiry, and what an accepted token with an expiry looks like. */
  lemma ExpiryTokens(raw: string)
    ensures var token := Lower(Strip(raw));
            && (ParseExpiry(raw) == Ok(None) <==> token in {"", "never", "none", "permanent", "perm", "0"})
            && (ParseExpiry(raw).Ok? && ParseExpiry(raw).value.Some? ==>
                  || IsDigits(token)
                  || (token != "" && token[|token| - 1] in {'d', 'w', 'm', 'y'}
                      && IsDigits(StripRight(token[..|token| - 1]))))
  {}

  lemma PositiveProduct(a: nat, b: nat)
    requires a >= 1 && b >= 1
    ensures a * b >= 1
  {}

  /** No token at all means less than one day. */
  lemma ExpiryIsPositive(raw: string)
    ensures ParseExpiry(raw).Ok? && ParseExpiry(raw).value.Some? ==> ParseExpiry(raw).value.value >= 1
  {}

  // ------------------------------------------------------------------ rows

  const ITEM_TYPES: set<string> := {"blocklist", "allowlist", "suspected"}

  datatype Spec = Spec(
    slug: string,
    itemType: string,
    value: string,
    expireDays: Option<nat>,
    reference: Option<string>,
    publicReference: Option<string>)

  function StripAll(fields: seq<string>): (r: seq<string>)
    ensures |r| == |fields| && forall i | 0 <= i < |r| :: r[i] == Strip(fields[i])
  {
    seq(|fields|, i requires 0 <= i < |fields| => Strip(fields[i]))
  }

  /** The cells by position; trailing ones that are missing count as empty. */
  function Cell(fields: seq<string>, i: nat): string {
    if i < |fields| then Strip(fields[i]) else ""
  }

  /** `s or None` */
  function OrNone(s: string): Option<string> {
    if s != "" then Some(s) else None
  }

  function RowType(fields: seq<string>, defaultType: Option<string>): string {
    if Cell(fields, 1) != "" then Cell(fields, 1)
    else if defaultType.Some? then defaultType.value else ""
  }

  predicate RowValid(fields: seq<string>, defaultType: Option<string>) {
    && |fields| >= 3 && Cell(fields, 0) != "" && RowType(fields, defaultType) in ITEM_TYPES
    && Cell(fields, 2) != "" && ParseExpiry(Cell(fields, 3)).Ok?
  }

  function RowSpec(fields: seq<string>, defaultType: Option<string>): Spec
    requires RowValid(fields, defaultType)
  {
    Spec(Cell(fields, 0), RowType(fields, defaultType), Cell(fields, 2), ParseExpiry(Cell(fields, 3)).value,
         OrNone(Cell(fields, 4)), OrNone(Cell(fields, 5)))
  }

  /** Which rows are accepted and what they mean, cell by cell. */
  lemma RowOutright(fields: seq<string>, defaultType: Option<string>)
    ensures RowValid(fields, defaultType) <==>
              && |fields| >= 3 && Strip(fields[0]) != "" && Strip(fields[2]) != ""
              && (Strip(fields[1]) in {"blocklist", "allowlist", "suspected"}
                  || (Strip(fields[1]) == ""
                      && defaultType in {Some("blocklist"), Some("allowlist"), Some("suspected")}))
              && (|fields| > 3 ==> ParseExpiry(Strip(fields[3])).Ok?)
    ensures RowValid(fields, defaultType) ==>
              var s := RowSpec(fields, defaultType);
              && s.slug == Strip(fields[0]) && s.value == Strip(fields[2])
              && s.itemType == (if Strip(fields[1]) != "" then Strip(fields[1]) else defaultType.value)
              && s.expireDays == (if |fields| > 3 then ParseExpiry(Strip(fields[3])).value else None)
              && s.reference == (if |fields| > 4 && Strip(fields[4]) != "" then Some(Strip(fields[4])) else None)
              && s.publicReference == (if |fields| > 5 && Strip(fields[5]) != "" then Some(Strip(fields[5])) else None)
  {
    assert ParseExpiry("") == Ok(None) by {
      StripTrimmed("");
      assert Lower("") == "";
    }
    TypeOutright(if |fields| > 1 then Strip(fields[1]) else "", defaultType);
  }

  lemma TypeOutright(cell: string, defaultType: Option<string>)
    ensures (if cell != "" then cell else if defaultType.Some? then defaultType.value else "") in ITEM_TYPES <==>
              || cell in {"blocklist", "allowlist", "suspected"}
              || (cell == "" && defaultType in {Some("blocklist"), Some("allowlist"), Some("suspected")})
  {
    assert "" !in ITEM_TYPES;
  }

  method ParseBulkRow(fields: seq<string>, defaultType: Option<string>) returns (r: Result<Spec>)
    ensures r.Ok? <==> RowValid(fields, defaultType)
    ensures r.Ok? ==> r.value == RowSpec(fields, defaultType)
  {
    var cells := StripAll(fields);
    if |cells| < 3 {
      return Err("expected at least 3 fields");
    }
    while |cells| < 6
      invariant |cells| >= |fields|
      invariant forall i | 0 <= i < |cells| :: cells[i] == Cell(fields, i)
      decreases 6 - |cells|
    {
      cells := cells + [""];
    }
    if cells[0] == "" {
      return Err("missing collection slug/id");
    }
    var blockType := cells[1];
    if blockType == "" {
      blockType := if defaultType.Some? then defaultType.value else "";
    }
    if blockType !in ITEM_TYPES {
      return Err("invalid block_type");
    }
    if cells[2] == "" {
      return Err("missing ioc value");
    }
    var expiry := ParseExpiry(cells[3]);
    if expiry.Err? {
      return Err(expiry.message);
    }
    r := Ok(Spec(cells[0], blockType, cells[2], expiry.value, OrNone(cells[4]), OrNone(cells[5])));
  }

  // ------------------------------------------------------------ round trip

  /** A cell that survives being written between delimiters. */
  predicate Writable(s: string, delimiter: char) {
    Trimmed(s) && delimiter !in s && '"' !in s
  }

  predicate WritableSpec(s: Spec, delimiter: char) {
    && s.slug != "" && Writable(s.slug, delimiter)
    && s.itemType in ITEM_TYPES && Writable(s.itemType, delimiter)
    && s.value != "" && Writable(s.value, delimiter)
    && (s.expireDays.Some? ==> s.expireDays.value >= 1 && delimiter !in Decimal(s.expireDays.value))
    && (s.reference.Some? ==> s.reference.value != "" && Writable(s.reference.value, delimiter))
    && (s.publicReference.Some? ==> s.publicReference.value != "" && Writable(s.publicReference.value, delimiter))
  }

  function Cells(s: Spec): (r: seq<string>)
    ensures |r| == 6
  {
    [s.slug, s.itemType, s.value,
     if s.expireDays.Some? then Decimal(s.expireDays.value) else "",
     if s.reference.Some? then s.reference.value else "",
     if s.publicReference.Some? then s.publicReference.value else ""]
  }

  lemma CellsSurvive(s: Spec, delimiter: char)
    requires WritableSpec(s, delimiter)
    ensures forall c | c in Cells(s) :: Trimmed(c) && delimiter !in c
    ensures ParseExpiry(Cells(s)[3]) == Ok(s.expireDays)
  {
    if s.expireDays.Some? {
      DigitsAreTrimmed(Decimal(s.expireDays.value));
      ExpiryOfNumber(s.expireDays.value);
    } else {
      StripTrimmed("");
      assert Lower("") == "";
    }
  }

  /**
   * A printed row parses back to the specification it was printed from, also
   * when empty trailing cells are left off.
   */
  lemma RowRoundTrip(s: Spec, delimiter: char, kept: nat, defaultType: Option<string>)
    requires WritableSpec(s, delimiter)
    requires 3 <= kept <= 6 && forall i | kept <= i < 6 :: Cells(s)[i] == ""
    ensures var fields := Split(Join(Cells(s)[..kept], [delimiter]), delimiter);
            RowValid(fields, defaultType) && RowSpec(fields, defaultType) == s
  {
    var shown := Cells(s)[..kept];
    CellsSurvive(s, delimiter);
    assert forall p | p in shown :: p in Cells(s);
    SplitJoin(shown, delimiter);
    forall i | 0 <= i < 6
      ensures Cell(shown, i) == Cells(s)[i]
    {
      assert Cells(s)[i] in Cells(s);
      if i < kept { StripTrimmed(shown[i]); }
    }
    CellsGiveSpec(shown, s, delimiter, defaultType);
  }

  lemma CellsGiveSpec(fields: seq<string>, s: Spec, delimiter: char, defaultType: Option<string>)
    requires WritableSpec(s, delimiter) && |fields| >= 3
    requires forall i | 0 <= i < 6 :: Cell(fields, i) == Cells(s)[i]
    ensures RowValid(fields, defaultType) && RowSpec(fields, defaultType) == s
  {
    var cells := Cells(s);
    CellsSurvive(s, delimiter);
    assert Cell(fields, 0) == cells[0] && Cell(fields, 1) == cells[1] && Cell(fields, 2) == cells[2];
    assert Cell(fields, 3) == cells[3] && Cell(fields, 4) == cells[4] && Cell(fields, 5) == cells[5];
    TypeIsGiven(s.itemType);
    SixCells(fields, s, cells[3], cells[4], cells[5], defaultType);
  }

  lemma TypeIsGiven(itemType: string)
    requires itemType in ITEM_TYPES
    ensures itemType != ""
  {}

  lemma SixCells(fields: seq<string>, s: Spec, expiry: string, reference: string, publicReference: string,
                 defaultType: Option<string>)
    requires |fields| >= 3 && s.slug != "" && s.itemType in ITEM_TYPES && s.itemType != "" && s.value != ""
    requires Cell(fields, 0) == s.slug && Cell(fields, 1) == s.itemType && Cell(fields, 2) == s.value
    requires Cell(fields, 3) == expiry && Cell(fields, 4) == reference && Cell(fields, 5) == publicReference
    requires ParseExpiry(expiry) == Ok(s.expireDays)
    requires OrNone(reference) == s.reference && OrNone(publicReference) == s.publicReference
    ensures RowValid(fields, defaultType) && RowSpec(fields, defaultType) == s
  {}

  lemma {:induction false} JoinSnoc(parts: seq<string>, last: string, sep: string)
    requires parts != []
    ensures Join(parts + [last], sep) == Join(parts, sep) + sep + last
  {
    if |parts| > 1 {
      assert (parts + [last])[1..] == parts[1..] + [last];
      JoinSnoc(parts[1..], last, sep);
    }
  }

  /** A printed line is trimmed, unless its last cell is empty and the delimiter is white space. */
  lemma {:induction false} JoinTrimmed(parts: seq<string>, delimiter: char)
    requires parts != [] && (forall p | p in parts :: Trimmed(p))
    requires parts[|parts| - 1] != "" || !IsSpace(delimiter)
    ensures var line := Join(parts, [delimiter]);
            && (line != "" ==> !IsSpace(line[|line| - 1]))
            && (parts[|parts| - 1] != "" ==> line != "")
            && (parts[0] != "" ==> line != "" && line[0] == parts[0][0] && Trimmed(line))
  {
    assert parts[0] in parts;
    if |parts| > 1 {
      JoinTrimmed(parts[1..], delimiter);
    }
  }

  /** Stripping a printed line takes off at most empty trailing cells. */
  lemma {:induction false} StripPrinted(parts: seq<string>, delimiter: char, ending: string) returns (k: nat)
    requires parts != [] && (forall p | p in parts :: Trimmed(p)) && parts[0] != "" && AllSpace(ending)
    ensures 1 <= k <= |parts| && forall i | k <= i < |parts| :: parts[i] == ""
    ensures Strip(Join(parts, [delimiter]) + ending) == Join(parts[..k], [delimiter])
    ensures var text := Join(parts[..k], [delimiter]);
            text != "" && text[0] == parts[0][0]
  {
    var line, n := Join(parts, [delimiter]), |parts| - 1;
    if parts[n] != "" || !IsSpace(delimiter) {
      k := n + 1;
      assert parts[..k] == parts;
      JoinTrimmed(parts, delimiter);
      StripPadded("", line, ending);
      assert "" + line + ending == line + ending;
    } else {
      assert parts == parts[..n] + [parts[n]];
      JoinSnoc(parts[..n], "", [delimiter]);
      assert line + ending == Join(parts[..n], [delimiter]) + ([delimiter] + ending);
      k := StripPrinted(parts[..n], delimiter, [delimiter] + ending);
      assert parts[..n][..k] == parts[..k];
    }
  }

  /** What is left of a printed line after stripping: the same row with some empty trailing cells left off. */
  lemma PrintedLineStripped(s: Spec, delimiter: char, kept: nat, ending: string) returns (k: nat)
    requires WritableSpec(s, delimiter) && AllSpace(ending)
    requires 3 <= kept <= 6 && forall i | kept <= i < 6 :: Cells(s)[i] == ""
    ensures 3 <= k <= 6 && forall i | k <= i < 6 :: Cells(s)[i] == ""
    ensures var text := Strip(Join(Cells(s)[..kept], [delimiter]) + ending);
            text == Join(Cells(s)[..k], [delimiter]) && text != "" && text[0] == s.slug[0]
  {
    var cells := Cells(s);
    CellsSurvive(s, delimiter);
    assert forall p | p in cells[..kept] :: p in cells;
    assert cells[..kept][0] == s.slug && cells[2] == s.value;
    k := StripPrinted(cells[..kept], delimiter, ending);
    KeptCells(cells, kept, k);
  }

  lemma KeptCells(cells: seq<string>, kept: nat, k: nat)
    requires |cells| == 6 && 3 <= kept <= 6 && 1 <= k <= kept && cells[2] != ""
    requires forall i | kept <= i < 6 :: cells[i] == ""
    requires forall i | k <= i < kept :: cells[..kept][i] == ""
    ensures 3 <= k && cells[..kept][..k] == cells[..k] && forall i | k <= i < 6 :: cells[i] == ""
  {
    assert forall i | 0 <= i < kept :: cells[..kept][i] == cells[i];
  }
}
