/** Settings: the comma-separated user-id lists and the two authorisation predicates
    built on them. Loading the values from the environment is not modelled. */
module Config {
  import opened Wrappers
  import opened PyText

  /** The untyped argument `parse_comma_separated_ints` may receive. */
  datatype SettingValue = NoneValue | ListValue(items: seq<int>) | StrValue(text: string) | OtherValue

  /** The `ValueError` `int()` raises, with the stripped segment it rejected. */
  datatype ValueError = InvalidLiteral(literal: string)

  /** The stripped pieces that are not empty, in order. */
  function NonEmptyStripped(pieces: seq<string>): seq<string> {
    if |pieces| == 0 then []
    else if Strip(pieces[0]) == "" then NonEmptyStripped(pieces[1..])
    else [Strip(pieces[0])] + NonEmptyStripped(pieces[1..])
  }

  /** The segments of `s` the comprehension converts: `uid.strip()` for every
      `uid in s.split(",")` with a non-empty strip. */
  function Segments(s: string): seq<string> {
    NonEmptyStripped(Split(s, ','))
  }

  /** `int(seg)` for every segment, `None` where it would raise. */
  function Attempts(segs: seq<string>): seq<Option<int>> {
    seq(|segs|, k requires 0 <= k < |segs| => PyInt(segs[k]))
  }

  /** The position of the first `None`, or `|opts|` when there is none. */
  function FirstNone(opts: seq<Option<int>>): (k: nat)
    ensures k <= |opts|
    ensures forall j :: 0 <= j < k ==> opts[j].Some?
    ensures k < |opts| ==> opts[k].None?
  {
    if |opts| == 0 || opts[0].None? then 0
    else
      var k := FirstNone(opts[1..]);
      assert forall j :: 1 <= j < k + 1 ==> opts[j] == opts[1..][j - 1];
      k + 1
  }

  /** A `None` with only `Some`s before it is the first `None`. */
  lemma {:induction false} FirstNoneAt(opts: seq<Option<int>>, k: nat)
    requires k < |opts| && opts[k].None?
    requires forall j :: 0 <= j < k ==> opts[j].Some?
    ensures FirstNone(opts) == k
  {
    if k > 0 {
      assert forall j :: 0 <= j < k - 1 ==> opts[1..][j] == opts[j + 1];
      FirstNoneAt(opts[1..], k - 1);
    }
  }

  /** The integers of a sequence of successful conversions, in order. */
  function Values(opts: seq<Option<int>>): (vs: seq<int>)
    requires forall k :: 0 <= k < |opts| ==> opts[k].Some?
    ensures |vs| == |opts| && forall k :: 0 <= k < |opts| ==> opts[k] == Some(vs[k])
  {
    seq(|opts|, k requires 0 <= k < |opts| => opts[k].value)
  }

  /** The position of the first segment `int()` rejects, or `|segs|` when there is none. */
  function FirstInvalid(segs: seq<string>): (k: nat)
    ensures k <= |segs|
    ensures forall j :: 0 <= j < k ==> PyInt(segs[j]).Some?
    ensures k < |segs| ==> PyInt(segs[k]).None?
  {
    var opts := Attempts(segs);
    assert forall j :: 0 <= j < |segs| ==> opts[j] == PyInt(segs[j]);
    FirstNone(opts)
  }

  /** `[int(seg) for seg in segs]`: the comprehension converts in order, so the first
      segment `int()` rejects is the one whose `ValueError` escapes. */
  function ParseAll(segs: seq<string>): (r: Result<seq<int>, ValueError>)
    ensures r.Ok? <==> FirstInvalid(segs) == |segs|
    ensures r.Ok? ==> |r.value| == |segs| && forall k :: 0 <= k < |segs| ==> PyInt(segs[k]) == Some(r.value[k])
    ensures r.Err? ==> r.error == InvalidLiteral(segs[FirstInvalid(segs)])
  {
    var k := FirstInvalid(segs);
    if k < |segs| then Err(InvalidLiteral(segs[k])) else Ok(Values(Attempts(segs)))
  }

  /** `parse_comma_separated_ints`. */
  function ParseCommaSeparatedInts(v: SettingValue): (r: Result<seq<int>, ValueError>)
    ensures v.NoneValue? || v.OtherValue? ==> r == Ok([])
    ensures v.ListValue? ==> r == Ok(v.items)
    ensures v.StrValue? && |Strip(v.text)| == 0 ==> r == Ok([])
    ensures v.StrValue? && |Strip(v.text)| > 0 ==> r == ParseAll(Segments(v.text))
  {
    match v
    case NoneValue => Ok([])
    case ListValue(items) => Ok(items)
    case StrValue(text) => if Strip(text) == "" then Ok([]) else ParseAll(Segments(text))
    case OtherValue => Ok([])
  }

  /** A blank text parses to the empty list even without the early `if not v.strip()`
      return: every comma segment of it strips to nothing. */
  lemma BlankCheckRedundant(text: string)
    requires Strip(text) == ""
    ensures ParseAll(Segments(text)) == Ok([])
  {
    StripEmptyIff(text);
    var pieces := Split(text, ',');
    SplitOfSpaces(text, ',');
    forall k | 0 <= k < |pieces| ensures Strip(pieces[k]) == "" {
      StripEmptyIff(pieces[k]);
    }
    AllBlankPieces(pieces);
  }

  /** So a text always parses as the conversions of its segments. */
  lemma TextParsesBySegments(text: string)
    ensures ParseCommaSeparatedInts(StrValue(text)) == ParseAll(Segments(text))
  {
    if |Strip(text)| == 0 {
      BlankCheckRedundant(text);
    }
  }

  lemma {:induction false} AllBlankPieces(pieces: seq<string>)
    requires forall k :: 0 <= k < |pieces| ==> Strip(pieces[k]) == ""
    ensures NonEmptyStripped(pieces) == []
  {
    if |pieces| > 0 {
      AllBlankPieces(pieces[1..]);
    }
  }

  /** How a list of ids is written in the environment: `",".join(str(i) for i in ids)`. */
  function FormatIds(ids: seq<int>): string {
    Join(Decimals(ids), ",")
  }

  /** Pieces that are non-empty and carry no surrounding whitespace are all kept as they are. */
  lemma {:induction false} StrippedUnchanged(pieces: seq<string>)
    requires forall k :: 0 <= k < |pieces| ==>
               |pieces[k]| > 0 && Trimmed(pieces[k])
    ensures NonEmptyStripped(pieces) == pieces
  {
    if |pieces| > 0 {
      StripUnchanged(pieces[0]);
      var rest := pieces[1..];
      assert forall k :: 0 <= k < |rest| ==> rest[k] == pieces[k + 1];
      StrippedUnchanged(rest);
      assert NonEmptyStripped(pieces) == [pieces[0]] + NonEmptyStripped(rest);
      assert [pieces[0]] + rest == pieces;
    }
  }

  function Decimals(ids: seq<int>): seq<string> {
    seq(|ids|, k requires 0 <= k < |ids| => IntToString(ids[k]))
  }

  lemma ParseAllDecimals(ids: seq<int>)
    ensures ParseAll(Decimals(ids)) == Ok(ids)
  {
    var strs := Decimals(ids);
    forall k | 0 <= k < |strs| ensures PyInt(strs[k]) == Some(ids[k]) {
      PyIntOfIntToString(ids[k]);
    }
    var r := ParseAll(strs);
    assert FirstInvalid(strs) == |strs|;
    assert r.value == ids;
  }

  /** No decimal holds a comma. */
  lemma DecimalsCommaFree(ids: seq<int>)
    ensures forall k :: 0 <= k < |Decimals(ids)| ==> ',' !in Decimals(ids)[k]
  {
    var strs := Decimals(ids);
    forall k | 0 <= k < |strs| ensures ',' !in strs[k] {
      IntToStringChars(ids[k]);
    }
  }

  /** Every decimal is non-empty and carries no surrounding whitespace. */
  lemma DecimalsTrimmed(ids: seq<int>)
    ensures forall k :: 0 <= k < |Decimals(ids)| ==> |Decimals(ids)[k]| > 0 && Trimmed(Decimals(ids)[k])
  {
    var strs := Decimals(ids);
    forall k | 0 <= k < |strs| ensures |strs[k]| > 0 && Trimmed(strs[k]) {
      assert strs[k] == IntToString(ids[k]);
    }
  }

  lemma SegmentsOfFormatIds(ids: seq<int>)
    requires |ids| > 0
    ensures Segments(FormatIds(ids)) == Decimals(ids)
  {
    var strs := Decimals(ids);
    DecimalsCommaFree(ids);
    SplitJoin(strs, ',');
    assert Split(FormatIds(ids), ',') == strs;
    DecimalsTrimmed(ids);
    StrippedUnchanged(strs);
  }

  /** Writing ids out and parsing them back gives the same ids, in order. */
  lemma ParseFormatIds(ids: seq<int>)
    ensures ParseCommaSeparatedInts(StrValue(FormatIds(ids))) == Ok(ids)
  {
    var text := FormatIds(ids);
    if |ids| > 0 {
      var strs := Decimals(ids);
      assert text[0] == strs[0][0] by {
        assert |strs[0]| > 0 && text[..|strs[0]|] == strs[0];
      }
      StripEmptyIff(text);
      SegmentsOfFormatIds(ids);
      ParseAllDecimals(ids);
    }
  }

  /** The two id lists the settings hold, as raw environment text. */
  datatype Settings = Settings(adminUserIds: string, allowedUserIds: string) {
    /** `admin_ids`: the conversions of the segments of the admin text; the error is
        that of the first segment `int()` rejects. */
    function AdminIds(): (r: Result<seq<int>, ValueError>)
      ensures r == ParseAll(Segments(adminUserIds))
    {
      TextParsesBySegments(adminUserIds);
      ParseCommaSeparatedInts(StrValue(adminUserIds))
    }

    /** `allowed_ids`, likewise for the allowed text. */
    function AllowedIds(): (r: Result<seq<int>, ValueError>)
      ensures r == ParseAll(Segments(allowedUserIds))
    {
      TextParsesBySegments(allowedUserIds);
      ParseCommaSeparatedInts(StrValue(allowedUserIds))
    }

    /** `all_authorized_users`: the union of both lists; the admin list is parsed first. */
    function AllAuthorizedUsers(): (r: Result<set<int>, ValueError>)
      ensures r.Ok? <==> AdminIds().Ok? && AllowedIds().Ok?
      ensures r.Ok? ==> forall u :: u in r.value <==> u in AdminIds().value || u in AllowedIds().value
      ensures r.Err? ==> r.error == (if AdminIds().Err? then AdminIds().error else AllowedIds().error)
    {
      match (AdminIds(), AllowedIds())
      case (Err(e), _) => Err(e)
      case (Ok(_), Err(e)) => Err(e)
      case (Ok(admins), Ok(allowed)) => Ok(set u | u in admins + allowed)
    }

    /** `is_admin`: answers exactly when the admin list parses, and then says whether
        the user is on it. */
    function IsAdmin(userId: int): (r: Result<bool, ValueError>)
      ensures r.Ok? <==> AdminIds().Ok?
      ensures r.Ok? ==> (r.value <==> userId in AdminIds().value)
      ensures r.Err? ==> r.error == AdminIds().error
    {
      match AdminIds()
      case Err(e) => Err(e)
      case Ok(admins) => Ok(userId in admins)
    }

    /** `is_authorized`: answers exactly when both lists parse, and then says whether
        the user is on either of them. */
    function IsAuthorized(userId: int): (r: Result<bool, ValueError>)
      ensures r.Ok? <==> AdminIds().Ok? && AllowedIds().Ok?
      ensures r.Ok? ==> (r.value <==> userId in AdminIds().value || userId in AllowedIds().value)
      ensures r.Err? ==> r.error == (if AdminIds().Err? then AdminIds().error else AllowedIds().error)
    {
      match AllAuthorizedUsers()
      case Err(e) => Err(e)
      case Ok(users) => Ok(userId in users)
    }
  }

  /** Every admin is authorised, whenever the allowed list parses. */
  lemma AdminIsAuthorized(s: Settings, userId: int)
    requires s.IsAdmin(userId) == Ok(true)
    requires s.AllowedIds().Ok?
    ensures s.IsAuthorized(userId) == Ok(true)
  {
  }

  /** A malformed allowed list makes every authorisation query fail, while the admin
      query still answers. */
  lemma MalformedAllowedList(s: Settings, userId: int)
    requires s.AdminIds().Ok? && s.AllowedIds().Err?
    ensures s.IsAuthorized(userId).Err? && s.IsAdmin(userId).Ok?
  {
  }

  /** The error of the whole list is that of the first segment `int()` rejects. */
  lemma FirstRejectedEscapes(segs: seq<string>, k: nat)
    requires k < |segs| && PyInt(segs[k]).None?
    requires forall j :: 0 <= j < k ==> PyInt(segs[j]).Some?
    ensures ParseAll(segs) == Err(InvalidLiteral(segs[k]))
  {
    var opts := Attempts(segs);
    assert opts[k].None?;
    assert forall j :: 0 <= j < k ==> opts[j].Some? by {
      forall j | 0 <= j < k ensures opts[j].Some? {
        assert opts[j] == PyInt(segs[j]);
      }
    }
    FirstNoneAt(opts, k);
  }

  /** Two trimmed, comma-free, non-empty pieces joined by a comma segment back into
      themselves. */
  lemma SegmentsOfPair(a: string, b: string)
    requires |a| > 0 && |b| > 0 && Trimmed(a) && Trimmed(b)
    requires ',' !in a && ',' !in b
    ensures Segments(a + "," + b) == [a, b]
  {
    SplitAtFirst(a, ',', b);
    SplitNoSeparator(b, ',');
    StrippedUnchanged([a, b]);
  }

  /** A list of two ids whose second one `int()` rejects fails with that one. */
  lemma RejectedSecondSegment(a: string, b: string)
    requires |a| > 0 && |b| > 0 && Trimmed(a) && Trimmed(b)
    requires ',' !in a && ',' !in b
    requires PyInt(a).Some? && PyInt(b).None?
    ensures ParseCommaSeparatedInts(StrValue(a + "," + b)) == Err(InvalidLiteral(b))
  {
    var segs := [a, b];
    assert ParseAll(segs) == Err(InvalidLiteral(b)) by {
      assert segs[0] == a && segs[1] == b;
      FirstRejectedEscapes(segs, 1);
    }
    SegmentsOfPair(a, b);
    TextParsesBySegments(a + "," + b);
  }

  /** An allowed list with a non-numeric segment, such as "12,abc", does not parse. */
  lemma NonNumericSegmentRejected()
    ensures ParseCommaSeparatedInts(StrValue("12,abc")) == Err(InvalidLiteral("abc"))
  {
    assert "12" + "," + "abc" == "12,abc";
    assert Trimmed("12") && Trimmed("abc") && ',' !in "12" && ',' !in "abc";
    assert PyInt("12") == Some(12) by {
      assert NatToString(1) == "1";
      assert NatToString(12) == "12";
      PyIntOfIntToString(12);
    }
    PyIntRejectsNonNumericStart("abc");
    RejectedSecondSegment("12", "abc");
  }
}
