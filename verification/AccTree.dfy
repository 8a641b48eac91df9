/** An AccTree storager: the records it holds, and the two prefix sets by which the source side of a
    migration keeps records until every prepared prefix has been confirmed. The accumulator tree
    itself is a foreign library; here it is the set of its records. */
module AccTree {
  import opened Wrappers
  import opened Hex
  import opened Text

  const MIGRATION_FORMAT_VERSION := 1

  datatype Record = Record(keyword: Keyword, fid: string)

  datatype Segment = Segment(version: nat, prefixHex: string, records: set<Record>)

  predicate Under(record: Record, prefix: string) {
    prefix <= record.keyword.Key()
  }

  function RecordsUnder(records: set<Record>, prefix: string): set<Record> {
    set r | r in records && Under(r, prefix)
  }

  function RecordsUnderAny(records: set<Record>, prefixes: set<string>): set<Record> {
    set r | r in records && exists p :: p in prefixes && Under(r, p)
  }

  predicate IsHexDigit(c: char) {
    '0' <= c <= '9' || 'a' <= c <= 'f' || 'A' <= c <= 'F'
  }

  function NormalizePrefixHex(prefixHex: string): (r: Result<string>)
    ensures r.Ok? ==> r.value != "" && LowerHex(r.value)
  {
    var normalized := ToLower(Trim(prefixHex));
    if normalized == "" then Err("hex prefix cannot be empty")
    else if |normalized| > 64 then Err("hex prefix is too long")
    else if exists i :: 0 <= i < |normalized| && !IsHexDigit(normalized[i]) then Err("invalid hex prefix")
    else LowercasedHexIsLower(Trim(prefixHex)); Ok(normalized)
  }

  lemma LowercasedHexIsLower(s: string)
    requires forall i :: 0 <= i < |s| ==> IsHexDigit(ToLower(s)[i])
    ensures LowerHex(ToLower(s))
  {}

  /** A prefix is accepted, whatever its case and the blanks around it, if it has from one to 64 hexadecimal digits, and
      then stands for those digits. */
  lemma NormalizesIff(prefixHex: string)
    ensures
      var (digits, r) := (Trim(prefixHex), NormalizePrefixHex(prefixHex));
      && (r.Ok? <==> 0 < |digits| <= 64 && forall i :: 0 <= i < |digits| ==> IsHexDigit(digits[i]))
      && (r.Ok? ==> r.value == Canonical(digits))
  {
    var digits := Trim(prefixHex);
    forall i | 0 <= i < |digits| ensures IsHexDigit(ToLower(digits)[i]) <==> IsHexDigit(digits[i]) {}
    if NormalizePrefixHex(prefixHex).Ok? {
      forall i | 0 <= i < |digits| ensures ToLower(digits)[i] == Canonical(digits)[i] {
        assert IsHexDigit(ToLower(digits)[i]);
        NibbleInjective(ToLower(digits)[i], Canonical(digits)[i]);
      }
      assert ToLower(digits) == Canonical(digits);
    }
  }

  /** The prefixes a ring hands out are already normal. */
  lemma RingPrefixIsNormal(prefix: string)
    requires prefix != "" && LowerHex(prefix) && |prefix| <= 64
    ensures NormalizePrefixHex(prefix) == Ok(prefix)
  {
    assert !IsWhitespace(prefix[0]) && !IsWhitespace(prefix[|prefix| - 1]);
    assert ToLower(prefix) == prefix;
  }

  datatype Storager = Storager(records: set<Record>, retained: set<string>, confirmed: set<string>) {

    function Export(prefixHex: string): Result<Segment> {
      match NormalizePrefixHex(prefixHex)
      case Err(e) => Err(e)
      case Ok(p) => Ok(Segment(MIGRATION_FORMAT_VERSION, p, RecordsUnder(records, p)))
    }

    function Import(segment: Segment): Result<Storager> {
      if segment.version != MIGRATION_FORMAT_VERSION then Err("unsupported prefix segment format version")
      else match NormalizePrefixHex(segment.prefixHex)
        case Err(e) => Err(e)
        case Ok(p) => Ok(this.(records := records - RecordsUnder(records, p) + RecordsUnder(segment.records, p)))
    }

    function Drain(prefixHex: string): Result<(Storager, Segment)> {
      match Export(prefixHex)
      case Err(e) => Err(e)
      case Ok(segment) => Ok((this.(records := records - segment.records), segment))
    }

    function Prepare(prefixHex: string): Result<(Storager, Segment)> {
      match Export(prefixHex)
      case Err(e) => Err(e)
      case Ok(segment) => Ok((this.(retained := retained + {segment.prefixHex}, confirmed := {}), segment))
    }

    function Confirm(prefixHex: string): Result<Storager> {
      match NormalizePrefixHex(prefixHex)
      case Err(e) => Err(e)
      case Ok(p) =>
        if p !in retained then Err("prefix was not prepared for retained migration")
        else
          var pending := this.(retained := retained - {p}, confirmed := confirmed + {p});
          if pending.retained != {} then Ok(pending)
          else Ok(pending.(records := records - RecordsUnderAny(records, pending.confirmed), confirmed := {}))
    }

    /** Moving a segment by drain and import loses nothing and leaves both sides' other records alone. */
    lemma DrainImportMoves(target: Storager, prefixHex: string)
      requires Drain(prefixHex).Ok?
      ensures
        var p := NormalizePrefixHex(prefixHex).value;
        var (source', segment) := Drain(prefixHex).value;
        && target.Import(segment).Ok?
        && var target' := target.Import(segment).value;
        && (forall r :: r in source'.records <==> r in records && !Under(r, p))
        && (forall r :: r in target'.records <==> if Under(r, p) then r in records else r in target.records)
    {
      var p := NormalizePrefixHex(prefixHex).value;
      NormalIsStable(prefixHex);
    }

    lemma NormalIsStable(prefixHex: string)
      requires NormalizePrefixHex(prefixHex).Ok?
      ensures NormalizePrefixHex(NormalizePrefixHex(prefixHex).value) == NormalizePrefixHex(prefixHex)
    {
      RingPrefixIsNormal(NormalizePrefixHex(prefixHex).value);
    }
  }

  // ----- a whole migration, as its source sees it

  /** Which requests a storager refuses: malformed prefixes, segments of another format, and confirms of a prefix it does
      not retain. */
  lemma RequestsIff(s: Storager, prefixHex: string, segment: Segment)
    ensures s.Export(prefixHex).Ok? <==> NormalizePrefixHex(prefixHex).Ok?
    ensures s.Drain(prefixHex).Ok? <==> NormalizePrefixHex(prefixHex).Ok?
    ensures s.Prepare(prefixHex).Ok? <==> NormalizePrefixHex(prefixHex).Ok?
    ensures s.Import(segment).Ok? <==> segment.version == 1 && NormalizePrefixHex(segment.prefixHex).Ok?
    ensures s.Confirm(prefixHex).Ok? <==> NormalizePrefixHex(prefixHex).Ok? && NormalizePrefixHex(prefixHex).value in s.retained
    ensures s.Export(prefixHex).Ok? ==> s.Import(s.Export(prefixHex).value).Ok?
  {
    if s.Export(prefixHex).Ok? {
      s.NormalIsStable(prefixHex);
    }
  }

  function PrepareAll(s: Storager, prefixes: seq<string>): Result<Storager>
    decreases |prefixes|
  {
    if prefixes == [] then Ok(s)
    else match s.Prepare(prefixes[0])
      case Err(e) => Err(e)
      case Ok((next, _)) => PrepareAll(next, prefixes[1..])
  }

  function ConfirmAll(s: Storager, prefixes: seq<string>): Result<Storager>
    decreases |prefixes|
  {
    if prefixes == [] then Ok(s)
    else match s.Confirm(prefixes[0])
      case Err(e) => Err(e)
      case Ok(next) => ConfirmAll(next, prefixes[1..])
  }

  function Elements(prefixes: seq<string>): set<string> {
    set p | p in prefixes
  }

  ghost predicate DistinctNormal(prefixes: seq<string>) {
    && (forall i :: 0 <= i < |prefixes| ==> NormalizePrefixHex(prefixes[i]) == Ok(prefixes[i]))
    && forall i, j :: 0 <= i < j < |prefixes| ==> prefixes[i] != prefixes[j]
  }

  lemma ElementsUncons(prefixes: seq<string>)
    requires prefixes != [] && DistinctNormal(prefixes)
    ensures Elements(prefixes) == {prefixes[0]} + Elements(prefixes[1..])
    ensures prefixes[0] !in Elements(prefixes[1..]) && DistinctNormal(prefixes[1..])
  {
    assert prefixes == [prefixes[0]] + prefixes[1..];
  }

  lemma {:induction false} PrepareAllRetains(s: Storager, prefixes: seq<string>)
    requires DistinctNormal(prefixes)
    ensures PrepareAll(s, prefixes) == Ok(s.(
      retained := s.retained + Elements(prefixes), confirmed := if prefixes == [] then s.confirmed else {}))
    decreases |prefixes|
  {
    if prefixes == [] {
      assert s.retained + Elements(prefixes) == s.retained;
    } else {
      ElementsUncons(prefixes);
      var next := s.(retained := s.retained + {prefixes[0]}, confirmed := {});
      PrepareAllRetains(next, prefixes[1..]);
      assert next.retained + Elements(prefixes[1..]) == s.retained + Elements(prefixes);
    }
  }

  /** A storager that has confirmed all of `prefixes`. */
  function Confirmed(s: Storager, prefixes: set<string>): Storager {
    if s.retained <= prefixes
    then Storager(s.records - RecordsUnderAny(s.records, s.confirmed + prefixes), {}, {})
    else s.(retained := s.retained - prefixes, confirmed := s.confirmed + prefixes)
  }

  lemma ConfirmedInSteps(s: Storager, p: string, rest: set<string>)
    requires p in s.retained && p !in rest && rest != {} && rest <= s.retained
    ensures
      var next := s.(retained := s.retained - {p}, confirmed := s.confirmed + {p});
      Confirmed(next, rest) == Confirmed(s, {p} + rest)
  {
    var next := s.(retained := s.retained - {p}, confirmed := s.confirmed + {p});
    assert next.confirmed + rest == s.confirmed + ({p} + rest);
    assert next.retained - rest == s.retained - ({p} + rest);
    assert next.retained <= rest <==> s.retained <= {p} + rest;
  }

  lemma {:induction false} ConfirmAllDeletes(s: Storager, prefixes: seq<string>)
    requires prefixes != [] && DistinctNormal(prefixes) && Elements(prefixes) <= s.retained
    ensures ConfirmAll(s, prefixes) == Ok(Confirmed(s, Elements(prefixes)))
    decreases |prefixes|
  {
    ElementsUncons(prefixes);
    var p, rest := prefixes[0], prefixes[1..];
    if rest == [] {
      OneConfirm(s, p);
      assert Elements(prefixes) == {p};
    } else {
      assert rest[0] in Elements(rest);
      var next := s.(retained := s.retained - {p}, confirmed := s.confirmed + {p});
      assert s.Confirm(p) == Ok(next);
      ConfirmAllDeletes(next, rest);
      ConfirmedInSteps(s, p, Elements(rest));
    }
  }

  lemma OneConfirm(s: Storager, p: string)
    requires NormalizePrefixHex(p) == Ok(p) && p in s.retained
    ensures s.Confirm(p) == Ok(Confirmed(s, {p}))
  {}

  /** A full migration of `prefixes` off a storager. The source deletes what it has handed over if and
      only if it was retaining nothing but (some of) these prefixes when the migration began; a prefix
      that an aborted migration left behind keeps every later migration from deleting anything. */
  lemma FullMigrationDeletesIff(s: Storager, prefixes: seq<string>)
    requires prefixes != [] && DistinctNormal(prefixes)
    ensures PrepareAll(s, prefixes).Ok?
    ensures
      var moved := ConfirmAll(PrepareAll(s, prefixes).value, prefixes);
      && moved.Ok?
      && moved.value.records
          == (if s.retained <= Elements(prefixes) then s.records - RecordsUnderAny(s.records, Elements(prefixes)) else s.records)
      && moved.value.retained == s.retained - Elements(prefixes)
  {
    PrepareAllRetains(s, prefixes);
    var all := Elements(prefixes);
    ConfirmAllDeletes(s.(retained := s.retained + all, confirmed := {}), prefixes);
    ConfirmedAfterPrepared(s, all);
  }

  lemma ConfirmedAfterPrepared(s: Storager, all: set<string>)
    ensures
      var moved := Confirmed(s.(retained := s.retained + all, confirmed := {}), all);
      && moved.records == (if s.retained <= all then s.records - RecordsUnderAny(s.records, all) else s.records)
      && moved.retained == s.retained - all
  {
    assert {} + all == all;
    assert s.retained + all - all == s.retained - all;
    assert s.retained + all <= all <==> s.retained <= all;
  }

  /** A concrete storager that still holds a record after a full migration of its prefix. */
  lemma StaleRetainedPrefixKeepsRecords(keyword: Keyword)
    ensures
      var prefix := keyword.Key()[..1];
      var stale := if prefix == "0" then "1" else "0";
      var s := Storager({Record(keyword, "f")}, {stale}, {});
      && PrepareAll(s, [prefix]).Ok? && ConfirmAll(PrepareAll(s, [prefix]).value, [prefix]).Ok?
      && Record(keyword, "f") in ConfirmAll(PrepareAll(s, [prefix]).value, [prefix]).value.records
      && Under(Record(keyword, "f"), prefix)
  {
    var prefix := keyword.Key()[..1];
    var stale := if prefix == "0" then "1" else "0";
    RingPrefixIsNormal(prefix);
    FullMigrationDeletesIff(Storager({Record(keyword, "f")}, {stale}, {}), [prefix]);
    assert stale !in Elements([prefix]);
  }

  /** The storager object: the same operations on fields that change in place. */
  class AccTreeAds {
    var records: set<Record>
    var retainedPrefixes: set<string>
    var confirmedPrefixes: set<string>

    ghost function State(): Storager
      reads this
    {
      Storager(records, retainedPrefixes, confirmedPrefixes)
    }

    constructor ()
      ensures State() == Storager({}, {}, {})
    {
      records, retainedPrefixes, confirmedPrefixes := {}, {}, {};
    }

    method Add(keyword: Keyword, fid: string)
      modifies this
      ensures State() == old(State()).(records := old(records) + {Record(keyword, fid)})
    {
      records := records + {Record(keyword, fid)};
    }

    method Delete(keyword: Keyword, fid: string)
      modifies this
      ensures State() == old(State()).(records := old(records) - {Record(keyword, fid)})
    {
      records := records - {Record(keyword, fid)};
    }

    method RecordsForPrefix(prefixHex: string) returns (found: Result<set<Record>>)
      ensures found == match NormalizePrefixHex(prefixHex)
        case Err(e) => Err(e)
        case Ok(p) => Ok(RecordsUnder(records, p))
    {
      var normalized := NormalizePrefixHex(prefixHex);
      match normalized {
        case Err(e) => found := Err(e);
        case Ok(p) => found := Ok(set r | r in records && Under(r, p));
      }
    }

    method ExportPrefixSegment(prefixHex: string) returns (segment: Result<Segment>)
      ensures segment == State().Export(prefixHex)
    {
      var normalized := NormalizePrefixHex(prefixHex);
      if normalized.Err? {
        return Err(normalized.error);
      }
      State().NormalIsStable(prefixHex);
      var found := RecordsForPrefix(normalized.value);
      segment := Ok(Segment(MIGRATION_FORMAT_VERSION, normalized.value, found.value));
    }

    method ImportPrefixSegment(segment: Segment) returns (done: Result<()>)
      modifies this
      ensures match old(State()).Import(segment)
        case Err(e) => done == Err(e) && State() == old(State())
        case Ok(s) => done == Ok(()) && State() == s
    {
      if segment.version != MIGRATION_FORMAT_VERSION {
        return Err("unsupported prefix segment format version");
      }
      var normalized := NormalizePrefixHex(segment.prefixHex);
      if normalized.Err? {
        return Err(normalized.error);
      }
      var allRecords := set r | r in records && !Under(r, normalized.value);
      allRecords := allRecords + set r | r in segment.records && Under(r, normalized.value);
      records := allRecords;
      done := Ok(());
    }

    method DrainPrefixSegment(prefixHex: string) returns (drained: Result<Segment>)
      modifies this
      ensures match old(State()).Drain(prefixHex)
        case Err(e) => drained == Err(e) && State() == old(State())
        case Ok((s, segment)) => drained == Ok(segment) && State() == s
    {
      drained := ExportPrefixSegment(prefixHex);
      if drained.Ok? {
        records := set r | r in records && !Under(r, drained.value.prefixHex);
      }
    }

    method PrepareRetainPrefixSegment(prefixHex: string) returns (prepared: Result<Segment>)
      modifies this
      ensures match old(State()).Prepare(prefixHex)
        case Err(e) => prepared == Err(e) && State() == old(State())
        case Ok((s, segment)) => prepared == Ok(segment) && State() == s
    {
      prepared := ExportPrefixSegment(prefixHex);
      if prepared.Ok? {
        retainedPrefixes := retainedPrefixes + {prepared.value.prefixHex};
        confirmedPrefixes := {};
      }
    }

    method ConfirmPrefixMigration(prefixHex: string) returns (done: Result<()>)
      modifies this
      ensures match old(State()).Confirm(prefixHex)
        case Err(e) => done == Err(e) && State() == old(State())
        case Ok(s) => done == Ok(()) && State() == s
    {
      var normalized := NormalizePrefixHex(prefixHex);
      if normalized.Err? {
        return Err(normalized.error);
      }
      if normalized.value !in retainedPrefixes {
        return Err("prefix was not prepared for retained migration");
      }
      retainedPrefixes := retainedPrefixes - {normalized.value};
      confirmedPrefixes := confirmedPrefixes + {normalized.value};
      if retainedPrefixes != {} {
        return Ok(());
      }
      records := set r | r in records && !exists p :: p in confirmedPrefixes && Under(r, p);
      confirmedPrefixes := {};
      done := Ok(());
    }
  }
}
