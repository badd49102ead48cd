/** The broadcaster record (`models/models.go`): its status table, the
    recordability and HD tests, and `GetModelData`, which turns one raw
    protocol payload into a record. URL unescaping and JSON decoding are
    library calls and enter as the two functions of a `Codec`. */
module Models {

  import opened Wrappers
  import opened GoInt
  import Strings

  const HDFlag: int32 := 1024
  const ModelLv: int64 := 4

  /** Visibility status codes. */
  const IsOnline: uint64 := 0
  const Except: uint64 := 90
  const IsOff: uint64 := 127
  const IsAway: uint64 := 2
  const IsPrivate: uint64 := 12
  const IsGroup: uint64 := 13

  const StatusVerbose: map<uint64, string> := map[
    IsOnline := "online",
    Except := "off",
    IsOff := "off",
    IsAway := "away",
    IsPrivate := "in private",
    IsGroup := "in group show"
  ]

  const UnknownModel: string := "unknown model"
  const UnknownStatus: string := "unknown status"

  /** `MFCModel`: `camserv` is the nested `U.Camserv`, `flags` is `M.Flags`,
      `present` is `Exists`. */
  datatype MFCModel = MFCModel(
    lv: int64,
    nm: string,
    pid: int64,
    sid: uint64,
    uid: uint64,
    vs: uint64,
    camserv: int32,
    flags: int32,
    present: bool,
    status: string)

  /** Go's zero value of `MFCModel`. */
  const ZeroModel: MFCModel := MFCModel(0, "", 0, 0, 0, 0, 0, 0, false, "")

  /** `SetStatus`: the label for the record's visibility code. */
  function SetStatus(m: MFCModel): (r: MFCModel)
    ensures r.(status := m.status) == m
    ensures !m.present ==> r.status == UnknownModel
    ensures m.present && m.vs in StatusVerbose ==> r.status == StatusVerbose[m.vs]
    ensures m.present && m.vs !in StatusVerbose ==> r.status == UnknownStatus
  {
    if !m.present then m.(status := UnknownModel)
    else if m.vs !in StatusVerbose then m.(status := UnknownStatus)
    else m.(status := StatusVerbose[m.vs])
  }

  /** `RecordEnable`: only an online broadcaster can be recorded. */
  predicate RecordEnable(m: MFCModel) {
    m.vs == IsOnline
  }

  /** `IsHD`: `M.Flags & HDFlag != 0`, on the 32-bit pattern of the flags. */
  predicate IsHD(m: MFCModel) {
    BitAnd(m.flags % TwoTo32, HDFlag as nat) != 0
  }

  /** The only label that announces a recordable broadcaster is "online". */
  lemma OnlineLabelIffRecordable(m: MFCModel)
    ensures SetStatus(m).status == "online" <==> m.present && RecordEnable(m)
  {
    if m.present && m.vs in StatusVerbose && StatusVerbose[m.vs] == "online" {
      assert m.vs == IsOnline;
    }
  }

  /** Both "off" codes, 90 and 127, read "off"; no other code does. */
  lemma OffLabels(m: MFCModel)
    requires m.present
    ensures SetStatus(m).status == "off" <==> m.vs == Except || m.vs == IsOff
  {
  }

  /** `IsHD` tests bit 10 (value 1024) of the flags' two's-complement
      pattern, so a negative flags word can be HD too. */
  lemma IsHDIffBit10(m: MFCModel)
    ensures IsHD(m) <==> ((m.flags % TwoTo32) / 1024) % 2 == 1
  {
    assert Pow2(10) == 1024;
    BitAndPow2(m.flags % TwoTo32, 10);
  }

  // ---- the routing prefix `\d+\s\d+\s\d+\s\d+\s\d+\s` ----

  /** `\d` of Go's regexp package: ASCII digits only. */
  predicate IsReDigit(c: char) {
    '0' <= c <= '9'
  }

  /** `\s` of Go's regexp package: `[\t\n\f\r ]`. */
  predicate IsReSpace(c: char) {
    c == '\t' || c == '\n' || c == '\U{0C}' || c == '\r' || c == ' '
  }

  /** End of the digit run that starts at position `i` of `t`. */
  function DigitEnd(t: string, i: nat): (e: nat)
    requires i <= |t|
    decreases |t| - i
    ensures i <= e <= |t|
    ensures e == |t| || !IsReDigit(t[e])
  {
    if i == |t| || !IsReDigit(t[i]) then i else DigitEnd(t, i + 1)
  }

  /** Everything the run covers is a digit. */
  lemma {:induction false} DigitEndDigits(t: string, i: nat)
    requires i <= |t|
    ensures forall p :: i <= p < DigitEnd(t, i) ==> IsReDigit(t[p])
    decreases |t| - i
  {
    if i < |t| && IsReDigit(t[i]) {
      DigitEndDigits(t, i + 1);
    }
  }

  /** End of the match of `k` repetitions of `\d+\s` that starts at
      position `i` of `t`, if there is one. A digit run followed by `\s`
      must be maximal, since `\s` matches no digit, so the regexp has
      exactly one way to match from a given start. */
  function RunsFrom(t: string, i: nat, k: nat): (r: Option<nat>)
    requires i <= |t|
    decreases k
    ensures r.Some? ==> i <= r.value <= |t|
  {
    if k == 0 then Some(i)
    else
      var d := DigitEnd(t, i);
      if d > i && d < |t| && IsReSpace(t[d]) then RunsFrom(t, d + 1, k - 1) else None
  }

  /** The routing prefix is five digit runs. */
  const RoutingRuns: nat := 5

  /** Text the routing pattern matches in full. */
  predicate IsRoutingCode(p: string) {
    RunsFrom(p, 0, RoutingRuns) == Some(|p|)
  }

  /** The digit run depends only on the characters it covers and the one
      that stops it, wherever they sit. */
  lemma {:induction false} DigitEndAgree(t: string, u: string, i: nat, j: nat)
    requires i <= |t| && DigitEnd(t, i) < |t| && DigitEnd(t, i) - i + j < |u|
    requires forall q :: j <= q <= DigitEnd(t, i) - i + j ==> u[q] == t[q - j + i]
    ensures DigitEnd(u, j) == DigitEnd(t, i) - i + j
    decreases |t| - i
  {
    assert u[j] == t[i];
    if IsReDigit(t[i]) {
      DigitEndAgree(t, u, i + 1, j + 1);
    }
  }

  /** Whether the pattern matches depends only on the text it matches:
      a match of `t` from `i` is a match of `u` from `j` when `u` holds the
      same characters there. */
  lemma {:induction false} RunsAgree(t: string, u: string, i: nat, j: nat, k: nat, e: nat)
    requires i <= |t| && j <= |u|
    requires RunsFrom(t, i, k) == Some(e) && e - i + j <= |u|
    requires forall q :: j <= q < e - i + j ==> u[q] == t[q - j + i]
    ensures RunsFrom(u, j, k) == Some(e - i + j)
    decreases k
  {
    if k > 0 {
      var d := DigitEnd(t, i);
      assert i < d < e && RunsFrom(t, d + 1, k - 1) == Some(e) by {
        RunsFromStep(t, i, k);
      }
      var d2 := d - i + j;
      RunsAgree(t, u, d + 1, d2 + 1, k - 1, e);
      RunsAgreeStep(t, u, i, j, k, e, d, d2);
    } else {
      assert e == i;
    }
  }

  /** One digit run and one `\s` of the copy, given that the copy's
      remaining runs already match. */
  lemma RunsAgreeStep(t: string, u: string, i: nat, j: nat, k: nat, e: nat, d: nat, d2: nat)
    requires i <= |t| && j <= |u| && k > 0
    requires RunsFrom(t, i, k) == Some(e) && e - i + j <= |u|
    requires forall q :: j <= q < e - i + j ==> u[q] == t[q - j + i]
    requires d == DigitEnd(t, i) && d < |t| && d2 == d - i + j
    requires RunsFrom(u, d2 + 1, k - 1) == Some(e - (d + 1) + (d2 + 1))
    ensures RunsFrom(u, j, k) == Some(e - i + j)
  {
    RunsFromStep(t, i, k);
    assert d < e;
    DigitEndAgree(t, u, i, j);
    assert u[d2] == t[d];
    RunsFromNext(u, j, k, d2);
  }

  /** A match of `k > 0` runs from `i` fails unless one digit run and one
      `\s` come first. */
  lemma RunsFromStep(t: string, i: nat, k: nat)
    requires i <= |t| && k > 0
    ensures var d := DigitEnd(t, i);
      RunsFrom(t, i, k) == if d > i && d < |t| && IsReSpace(t[d]) then RunsFrom(t, d + 1, k - 1) else None
  {
  }

  /** After one digit run and one `\s`, a match of `k` runs continues as
      a match of `k - 1`. */
  lemma RunsFromNext(u: string, j: nat, k: nat, d: nat)
    requires j <= |u| && k > 0 && DigitEnd(u, j) == d && j < d < |u| && IsReSpace(u[d])
    ensures RunsFrom(u, j, k) == RunsFrom(u, d + 1, k - 1)
  {
  }

  /** The leftmost match of `k` runs at or after position `i`, as start
      and end positions. */
  function FindFrom(s: string, i: nat, k: nat): (r: Option<(nat, nat)>)
    requires i <= |s|
    decreases |s| - i
    ensures r.Some? ==> i <= r.value.0 <= |s| && RunsFrom(s, r.value.0, k) == Some(r.value.1)
  {
    match RunsFrom(s, i, k)
    case Some(e) => Some((i, e))
    case None => if i == |s| then None else FindFrom(s, i + 1, k)
  }

  /** The search skips no match: none starts before the one reported, and
      none at all when nothing is reported. */
  lemma {:induction false} FindFromLeftmost(s: string, i: nat, k: nat)
    requires i <= |s|
    ensures FindFrom(s, i, k).Some? ==> forall j :: i <= j < FindFrom(s, i, k).value.0 ==> RunsFrom(s, j, k).None?
    ensures FindFrom(s, i, k).None? ==> forall j :: i <= j <= |s| ==> RunsFrom(s, j, k).None?
    decreases |s| - i
  {
    if RunsFrom(s, i, k).None? && i < |s| {
      FindFromLeftmost(s, i + 1, k);
    }
  }

  /** `FindString`: the text of the leftmost match of the routing pattern. */
  function FindRouting(s: string): (r: Option<string>)
    ensures r.Some? ==> IsRoutingCode(r.value) && Strings.Contains(s, r.value)
    ensures r.None? <==> forall j :: 0 <= j <= |s| ==> RunsFrom(s, j, RoutingRuns).None?
  {
    FindFromLeftmost(s, 0, RoutingRuns);
    match FindFrom(s, 0, RoutingRuns)
    case None => None
    case Some((i, e)) =>
      MatchIsCode(s, i, e);
      Strings.ContainsSlice(s, i, e);
      Some(s[i..e])
  }

  /** The text a match covers is itself a routing code. */
  lemma MatchIsCode(s: string, i: nat, e: nat)
    requires i <= |s| && RunsFrom(s, i, RoutingRuns) == Some(e)
    ensures IsRoutingCode(s[i..e])
  {
    var code := s[i..e];
    assert |code| == e - i + 0;
    RunsAgree(s, code, i, 0, RoutingRuns, e);
    assert RunsFrom(code, 0, RoutingRuns) == Some(|code|);
  }

  /** The prefix strip: the matched text is deleted wherever it occurs;
      with no match the payload is left alone. */
  function StripRouting(s: string): (r: string)
    ensures FindRouting(s).None? ==> r == s
    ensures FindRouting(s).Some? ==> |r| < |s|
  {
    match FindRouting(s)
    case None => s
    case Some(code) =>
      Strings.RemoveShrinks(s, code);
      Strings.RemoveAll(s, code)
  }

  /** A match of `k > 0` runs is not empty. */
  lemma MatchNonEmpty(s: string, i: nat, k: nat)
    requires i <= |s| && k > 0 && RunsFrom(s, i, k).Some?
    ensures RunsFrom(s, i, k).value > i
  {
    RunsFromStep(s, i, k);
  }

  /** The text a match of `k` runs covers matches in full on its own. */
  lemma MatchedTextMatches(s: string, i: nat, e: nat, k: nat)
    requires i <= |s| && RunsFrom(s, i, k) == Some(e)
    ensures RunsFrom(s[i..e], 0, k) == Some(e - i)
  {
    RunsAgree(s, s[i..e], i, 0, k, e);
  }

  /** Wherever text that matches in full occurs, the pattern matches. */
  lemma OccurrenceMatches(s: string, code: string, j: nat, k: nat)
    requires j <= |s| && RunsFrom(code, 0, k) == Some(|code|)
    requires Strings.StartsWith(s[j..], code)
    ensures RunsFrom(s, j, k).Some?
  {
    forall q | j <= q < |code| + j ensures s[q] == code[q - j] {
      assert s[q] == s[j..][..|code|][q - j];
    }
    RunsAgree(code, s, 0, j, k, |code|);
  }

  /** No occurrence of the matched text starts before the leftmost match:
      it would be a match of the pattern there. */
  lemma NoEarlierMatch(s: string, i: nat, e: nat, j: nat, k: nat)
    requires FindFrom(s, 0, k) == Some((i, e)) && j < i
    ensures !Strings.StartsWith(s[j..], s[i..e])
  {
    if Strings.StartsWith(s[j..], s[i..e]) {
      MatchedTextMatches(s, i, e, k);
      OccurrenceMatches(s, s[i..e], j, k);
      FindFromLeftmost(s, 0, k);
      assert false;
    }
  }

  /** Deleting the leftmost match's text keeps what precedes the match,
      drops the match, and deletes the text wherever it occurs after it. */
  lemma RemoveLeftmostMatch(s: string, k: nat, i: nat, e: nat)
    requires k > 0 && FindFrom(s, 0, k) == Some((i, e))
    ensures Strings.RemoveAll(s, s[i..e]) == s[..i] + Strings.RemoveAll(s[e..], s[i..e])
  {
    var code := s[i..e];
    MatchNonEmpty(s, i, k);
    forall j | 0 <= j < i ensures !Strings.StartsWith(s[j..], code) {
      NoEarlierMatch(s, i, e, j, k);
    }
    Strings.RemoveAllSkips(s, code, i);
    assert s[i..][..|code|] == code;
    Strings.RemoveAllLeading(s[i..], code);
    assert s[i..][|code|..] == s[e..];
  }

  /** The strip keeps what precedes the leftmost match, drops the match,
      and deletes the matched text wherever it occurs again after it. */
  lemma StripRoutingExact(s: string, i: nat, e: nat)
    requires FindFrom(s, 0, RoutingRuns) == Some((i, e))
    ensures StripRouting(s) == s[..i] + Strings.RemoveAll(s[e..], s[i..e])
  {
    RemoveLeftmostMatch(s, RoutingRuns, i, e);
  }

  /** A payload that starts with a routing code followed by a body that
      does not repeat it comes out as the body. */
  lemma StripRoutingPrefix(code: string, body: string)
    requires IsRoutingCode(code)
    requires !Strings.Contains(body, code)
    ensures StripRouting(code + body) == body
  {
    var s := code + body;
    RunsAgree(code, s, 0, 0, RoutingRuns, |code|);
    assert s[0..|code|] == code;
    assert FindRouting(s) == Some(code);
    Strings.RemoveLeading(code, body);
  }

  // ---- GetModelData ----

  datatype DataError = ServiceInfoError | UnescapeError(msg: string)

  /** `json.Unmarshal` into a zero `MFCModel`: the record as filled in,
      and whether decoding reported success. */
  datatype Decoded = Decoded(record: MFCModel, ok: bool)

  /** The two library calls `GetModelData` makes. */
  datatype Codec = Codec(
    queryUnescape: string -> Result<string, string>,
    unmarshal: string -> Decoded)

  /** Go returns the record and the error side by side. */
  datatype ModelData = ModelData(model: MFCModel, err: Option<DataError>)

  /** The deferred post-processing of `GetModelData`. */
  function Finish(m: MFCModel): MFCModel {
    SetStatus(m.(present := m.nm != ""))
  }

  function GetModelData(raw: string, codec: Codec): (r: ModelData)
    // the deferred block runs on every return path
    ensures r.model.present == (r.model.nm != "")
    ensures r.model == SetStatus(r.model)
    // an unescape failure is returned as is, with an empty record
    ensures codec.queryUnescape(raw).Err? ==>
      r.err == Some(UnescapeError(codec.queryUnescape(raw).error))
      && !r.model.present && r.model.status == UnknownModel
    // otherwise the decoder sees the payload without its routing prefix
    ensures codec.queryUnescape(raw).Ok? ==>
      var d := codec.unmarshal(StripRouting(codec.queryUnescape(raw).value));
      && (r.err.None? <==> d.ok)
      && (r.err.Some? ==> r.err.value == ServiceInfoError)
      && r.model.(present := d.record.present, status := d.record.status) == d.record
  {
    match codec.queryUnescape(raw)
    case Err(e) => ModelData(Finish(ZeroModel), Some(UnescapeError(e)))
    case Ok(text) =>
      var d := codec.unmarshal(StripRouting(text));
      if !d.ok then ModelData(Finish(d.record), Some(ServiceInfoError))
      else ModelData(Finish(d.record), None)
  }

}
