/**
 * `extract_json_from_llm_response` of `utils.py`: the JSON in a model's reply. The
 * whole reply is parsed first; then the fenced code blocks of the pattern
 * ```` ```(?:json)?\s*([\s\S]*?)``` ```` in order of appearance, each stripped; then
 * the matches of `\{[\s\S]*\}`. The first candidate that parses is the answer; when
 * none does, a decode error carries the first 3000 characters of the reply.
 *
 * `json.loads` is a parameter: a partial function from text to a parsed value.
 */
module JsonExtract {
  import opened Wrappers
  import opened Strings

  // ---------------------------------------------------------------------
  // The fenced-block pattern and re.findall over it
  // ---------------------------------------------------------------------

  /** Three backticks start at `k`. */
  predicate FenceAt(text: string, k: nat) {
    k + 3 <= |text| && text[k] == '`' && text[k + 1] == '`' && text[k + 2] == '`'
  }

  /** `json` starts at `k`. */
  predicate JsonTagAt(text: string, k: nat) {
    k + 4 <= |text| && text[k] == 'j' && text[k + 1] == 's' && text[k + 2] == 'o' && text[k + 3] == 'n'
  }

  /** The lazy `([\s\S]*?)```` from `r`: the first fence at or after `r`. */
  function FirstFence(text: string, r: nat): (e: Option<nat>)
    ensures e.Some? ==> r <= e.value && FenceAt(text, e.value)
    ensures e.Some? ==> forall k :: r <= k < e.value ==> !FenceAt(text, k)
    ensures e.None? ==> forall k :: r <= k ==> !FenceAt(text, k)
    decreases |text| - r
  {
    if r + 3 > |text| then None
    else if FenceAt(text, r) then Some(r)
    else FirstFence(text, r + 1)
  }

  /** The length of the run of whitespace starting at `q`: what a greedy `\s*` takes first. */
  function SpaceRun(text: string, q: nat): (n: nat)
    requires q <= |text|
    ensures q + n <= |text|
    ensures forall k :: q <= k < q + n ==> IsSpaceChar(text[k])
    ensures q + n < |text| ==> !IsSpaceChar(text[q + n])
    decreases |text| - q
  {
    if q == |text| || !IsSpaceChar(text[q]) then 0 else 1 + SpaceRun(text, q + 1)
  }

  /**
   * `\s*([\s\S]*?)```` from `q`, with `\s*` holding `w` characters and giving them back
   * one at a time when no fence follows: the captured content and the end of the match.
   */
  function TryContent(text: string, q: nat, w: nat): (m: Option<(string, nat)>)
    requires q + w <= |text|
    ensures m.Some? ==> q + 3 <= m.value.1 <= |text|
    decreases w
  {
    match FirstFence(text, q + w)
    case Some(e) => Some((text[q + w..e], e + 3))
    case None => if w == 0 then None else TryContent(text, q, w - 1)
  }

  /**
   * The match of the pattern starting at `p`: the optional `json` is taken when present
   * and dropped only if the rest of the match then fails.
   */
  function FencedAt(text: string, p: nat): (m: Option<(string, nat)>)
    ensures m.Some? ==> p < m.value.1 <= |text|
  {
    if !FenceAt(text, p) then None
    else
      var withTag := if JsonTagAt(text, p + 3) then TryContent(text, p + 7, SpaceRun(text, p + 7)) else None;
      if withTag.Some? then withTag else TryContent(text, p + 3, SpaceRun(text, p + 3))
  }

  /** `re.findall` from `p`: each match's group, scanning on from the end of the last match. */
  function FencedBlocks(text: string, p: nat): seq<string>
    decreases |text| - p
  {
    if p >= |text| then []
    else
      match FencedAt(text, p)
      case Some(m) => [m.0] + FencedBlocks(text, m.1)
      case None => FencedBlocks(text, p + 1)
  }

  /** Where the content of a block opening at `p` starts: after the fence, the tag if any, and all whitespace. */
  function ContentStart(text: string, p: nat): (q: nat)
    requires FenceAt(text, p)
    ensures q <= |text|
  {
    var a := if JsonTagAt(text, p + 3) then p + 7 else p + 3;
    a + SpaceRun(text, a)
  }

  /** No fence starts where no backtick is. */
  lemma {:induction false} FirstFenceSkip(text: string, r: nat, s: nat)
    requires r <= s <= |text|
    requires forall k :: r <= k < s ==> text[k] != '`'
    ensures FirstFence(text, r) == FirstFence(text, s)
    decreases s - r
  {
    if r < s {
      FirstFenceSkip(text, r + 1, s);
    }
  }

  /** Giving back whitespace never finds a fence the longest run did not. */
  lemma {:induction false} TryContentGreedy(text: string, q: nat, w: nat)
    requires q + w <= |text|
    requires forall k :: q <= k < q + w ==> IsSpaceChar(text[k])
    ensures TryContent(text, q, w) ==
            match FirstFence(text, q + w)
            case Some(e) => Some((text[q + w..e], e + 3))
            case None => None
  {
    if w > 0 && FirstFence(text, q + w).None? {
      FirstFenceSkip(text, q + w - 1, q + w);
      TryContentGreedy(text, q, w - 1);
    }
  }

  /**
   * The backtracking the pattern allows never changes its match: a block opening at
   * `p` holds everything from the content start up to the first fence after it, and
   * there is no match at `p` when no fence follows.
   */
  lemma {:induction false} FencedAtMeaning(text: string, p: nat)
    requires FenceAt(text, p)
    ensures var q := ContentStart(text, p);
            FencedAt(text, p) ==
              match FirstFence(text, q)
              case Some(e) => Some((text[q..e], e + 3))
              case None => None
  {
    if JsonTagAt(text, p + 3) {
      FencedTagged(text, p);
    } else {
      var a := p + 3;
      assert FencedAt(text, p) == TryContent(text, a, SpaceRun(text, a));
      TryContentGreedy(text, a, SpaceRun(text, a));
    }
  }

  /** The case of `FencedAtMeaning` with the `json` tag. */
  lemma {:induction false} FencedTagged(text: string, p: nat)
    requires FenceAt(text, p) && JsonTagAt(text, p + 3)
    ensures var q := ContentStart(text, p);
            FencedAt(text, p) ==
              match FirstFence(text, q)
              case Some(e) => Some((text[q..e], e + 3))
              case None => None
  {
    var a := p + 3;
    var w := SpaceRun(text, a + 4);
    var q := a + 4 + w;
    assert ContentStart(text, p) == q;
    var withTag := TryContent(text, a + 4, w);
    TryContentGreedy(text, a + 4, w);
    if FirstFence(text, q).None? {
      assert SpaceRun(text, a) == 0 by {
        assert !IsSpaceChar(text[a]);
      }
      assert FencedAt(text, p) == TryContent(text, a, 0);
      assert forall k :: a <= k < q ==> text[k] != '`';
      FirstFenceSkip(text, a, q);
    } else {
      assert FencedAt(text, p) == withTag;
    }
  }

  /**
   * `re.findall` at a fence: the block's content is the next group and the scan resumes
   * after its closing fence; with no closing fence the scan moves on by one character.
   */
  lemma FencedBlocksAt(text: string, p: nat)
    requires FenceAt(text, p)
    ensures var q := ContentStart(text, p);
            match FirstFence(text, q)
            case Some(e) => FencedBlocks(text, p) == [text[q..e]] + FencedBlocks(text, e + 3)
            case None => FencedBlocks(text, p) == FencedBlocks(text, p + 1)
  {
    FencedAtMeaning(text, p);
  }

  /** `re.findall` finds nothing where no backtick is. */
  lemma {:induction false} FencedBlocksSkip(text: string, p: nat, s: nat)
    requires p <= s <= |text|
    requires forall k :: p <= k < s ==> text[k] != '`'
    ensures FencedBlocks(text, p) == FencedBlocks(text, s)
    decreases s - p
  {
    if p < s {
      assert FencedAt(text, p).None?;
      FencedBlocksSkip(text, p + 1, s);
    }
  }

  /** A run of `n` whitespace characters followed by something else is what `\s*` takes. */
  lemma {:induction false} SpaceRunOf(text: string, q: nat, n: nat)
    requires q + n <= |text|
    requires forall k :: q <= k < q + n ==> IsSpaceChar(text[k])
    requires q + n < |text| ==> !IsSpaceChar(text[q + n])
    ensures SpaceRun(text, q) == n
    decreases n
  {
    if n > 0 {
      SpaceRunOf(text, q + 1, n - 1);
    }
  }

  /** The lazy search stops at the first fence. */
  lemma {:induction false} FirstFenceFound(text: string, r: nat, e: nat)
    requires r <= e && FenceAt(text, e)
    requires forall k :: r <= k < e ==> !FenceAt(text, k)
    ensures FirstFence(text, r) == Some(e)
    decreases e - r
  {
    if r < e {
      FirstFenceFound(text, r + 1, e);
    }
  }

  // ---------------------------------------------------------------------
  // The brace pattern and re.findall over it
  // ---------------------------------------------------------------------

  /**
   * `[\s\S]*\}` after an opening brace at `p`: the star takes everything up to `j` and
   * gives characters back until a `}` follows; the end of the match.
   */
  function CloseFrom(text: string, p: nat, j: nat): (end: Option<nat>)
    requires p <= j < |text|
    ensures end.Some? ==> p < end.value - 1 <= j && text[end.value - 1] == '}'
    ensures end.Some? ==> forall k :: end.value - 1 < k <= j ==> text[k] != '}'
    ensures end.None? ==> forall k :: p < k <= j ==> text[k] != '}'
    decreases j - p
  {
    if j == p then None
    else if text[j] == '}' then Some(j + 1)
    else CloseFrom(text, p, j - 1)
  }

  /** The match of `\{[\s\S]*\}` starting at `p`. */
  function BraceAt(text: string, p: nat): (end: Option<nat>)
    ensures end.Some? ==> p < end.value <= |text|
  {
    if p < |text| && text[p] == '{' then CloseFrom(text, p, |text| - 1) else None
  }

  /** `re.findall(r"\{[\s\S]*\}", text)` from `p`. */
  function BraceSpans(text: string, p: nat): seq<string>
    decreases |text| - p
  {
    if p >= |text| then []
    else
      match BraceAt(text, p)
      case Some(end) => [text[p..end]] + BraceSpans(text, end)
      case None => BraceSpans(text, p + 1)
  }

  /** No match from `p` on when no character from `p` on opens a match. */
  lemma {:induction false} BraceSpansNone(text: string, p: nat)
    requires forall k :: p <= k < |text| ==> BraceAt(text, k).None?
    ensures BraceSpans(text, p) == []
    decreases |text| - p
  {
    if p < |text| {
      BraceSpansNone(text, p + 1);
    }
  }

  /** Scanning skips the characters before the first `{`. */
  lemma {:induction false} BraceSpansSkip(text: string, p: nat, i: nat)
    requires p <= i <= |text|
    requires forall k :: p <= k < i ==> text[k] != '{'
    ensures BraceSpans(text, p) == BraceSpans(text, i)
    decreases i - p
  {
    if p < i {
      BraceSpansSkip(text, p + 1, i);
    }
  }

  /**
   * The brace stage has at most one candidate: the span from the first `{` to the last
   * `}`, when that `}` comes after that `{`.
   */
  lemma {:induction false} BraceSpansMeaning(text: string)
    ensures var i, j := IndexOf(text, '{'), RFind(text, '}');
            BraceSpans(text, 0) == if i < j then [text[i..j + 1]] else []
  {
    var i, j := IndexOf(text, '{'), RFind(text, '}');
    BraceSpansSkip(text, 0, i);
    if i < |text| {
      var end := BraceAt(text, i);
      if i < j {
        assert end == Some(j + 1);
      } else {
        assert end.None?;
      }
      forall k | (if end.Some? then end.value else i + 1) <= k < |text| ensures BraceAt(text, k).None? {
        if text[k] == '{' {
          assert CloseFrom(text, k, |text| - 1).None?;
        }
      }
      BraceSpansNone(text, if end.Some? then end.value else i + 1);
    } else {
      assert BraceSpans(text, i) == [];
    }
  }

  // ---------------------------------------------------------------------
  // The cascade
  // ---------------------------------------------------------------------

  /** The position of the first candidate that parses, in order. */
  function FirstParsing<T>(candidates: seq<string>, loads: string -> Option<T>): (k: Option<nat>)
    ensures k.Some? ==> k.value < |candidates| && loads(candidates[k.value]).Some?
    ensures k.Some? ==> forall j :: 0 <= j < k.value ==> loads(candidates[j]).None?
    ensures k.None? <==> forall i :: 0 <= i < |candidates| ==> loads(candidates[i]).None?
  {
    if candidates == [] then None
    else if loads(candidates[0]).Some? then Some(0)
    else
      assert forall i :: 1 <= i < |candidates| ==> candidates[i] == candidates[1..][i - 1];
      match FirstParsing(candidates[1..], loads)
      case Some(k) => Some(k + 1)
      case None => None
  }

  /** The value of the first candidate that parses. */
  function FirstParse<T>(candidates: seq<string>, loads: string -> Option<T>): Option<T>
  {
    match FirstParsing(candidates, loads)
    case Some(k) => loads(candidates[k])
    case None => None
  }

  /** `block.strip()` for every fenced block. */
  function StrippedBlocks(text: string): (bs: seq<string>)
    ensures |bs| == |FencedBlocks(text, 0)|
    ensures forall i :: 0 <= i < |bs| ==> bs[i] == Strip(FencedBlocks(text, 0)[i])
  {
    var blocks := FencedBlocks(text, 0);
    seq(|blocks|, i requires 0 <= i < |blocks| => Strip(blocks[i]))
  }

  /** No candidate yields a value exactly when none parses. */
  lemma FirstParseNone<T>(candidates: seq<string>, loads: string -> Option<T>)
    ensures FirstParse(candidates, loads).None? <==> forall i :: 0 <= i < |candidates| ==> loads(candidates[i]).None?
  {
    if FirstParsing(candidates, loads).Some? {
      assert loads(candidates[FirstParsing(candidates, loads).value]).Some?;
    }
  }

  datatype DecodeError = CouldNotExtract(excerpt: string)

  /** `response_text[:3000]`. */
  function Excerpt(text: string): string {
    if |text| <= 3000 then text else text[..3000]
  }

  /** The three stages over given candidates: the whole reply, then `blocks`, then `spans`. */
  function Cascade<T>(text: string, blocks: seq<string>, spans: seq<string>, loads: string -> Option<T>): Result<T, DecodeError>
  {
    match loads(text)
    case Some(v) => Success(v)
    case None =>
      match FirstParse(blocks, loads)
      case Some(v) => Success(v)
      case None =>
        match FirstParse(spans, loads)
        case Some(v) => Success(v)
        case None => Failure(CouldNotExtract(Excerpt(text)))
  }

  function ExtractJson<T>(text: string, loads: string -> Option<T>): Result<T, DecodeError>
  {
    Cascade(text, StrippedBlocks(text), BraceSpans(text, 0), loads)
  }

  /** `Cascade` picks the earliest stage with a candidate that parses, and its first such candidate. */
  lemma CascadePriority<T>(text: string, bs: seq<string>, spans: seq<string>, loads: string -> Option<T>)
    requires Cascade(text, bs, spans, loads).Success?
    ensures var v := Cascade(text, bs, spans, loads).value;
            || loads(text) == Some(v)
            || (&& loads(text).None?
                && exists i :: 0 <= i < |bs| && loads(bs[i]) == Some(v) && forall j :: 0 <= j < i ==> loads(bs[j]).None?)
            || (&& loads(text).None? && (forall i :: 0 <= i < |bs| ==> loads(bs[i]).None?)
                && exists i :: 0 <= i < |spans| && loads(spans[i]) == Some(v)
                               && forall j :: 0 <= j < i ==> loads(spans[j]).None?)
  {
    var v := Cascade(text, bs, spans, loads).value;
    if loads(text).None? {
      match FirstParsing(bs, loads)
      case Some(k) =>
        assert loads(bs[k]) == Some(v);
      case None =>
        var k := FirstParsing(spans, loads);
        assert k.Some?;
        assert loads(spans[k.value]) == Some(v);
    }
  }

  /** `Cascade` fails exactly when no candidate of any stage parses. */
  lemma CascadeFails<T>(text: string, bs: seq<string>, spans: seq<string>, loads: string -> Option<T>)
    ensures Cascade(text, bs, spans, loads).Failure? <==>
              && loads(text).None?
              && (forall i :: 0 <= i < |bs| ==> loads(bs[i]).None?)
              && (forall i :: 0 <= i < |spans| ==> loads(spans[i]).None?)
    ensures Cascade(text, bs, spans, loads).Failure? ==> Cascade(text, bs, spans, loads).error.excerpt == Excerpt(text)
  {
    FirstParseNone(bs, loads);
    FirstParseNone(spans, loads);
  }

  /** A reply that parses as a whole is returned as parsed. */
  lemma WholeReplyFirst<T>(text: string, loads: string -> Option<T>)
    requires loads(text).Some?
    ensures ExtractJson(text, loads) == Success(loads(text).value)
  {
  }

  /**
   * Otherwise the answer is the first stripped block that parses; only when none does
   * is the brace span tried.
   */
  lemma BlocksBeforeBraces<T>(text: string, loads: string -> Option<T>, i: nat)
    requires loads(text).None?
    requires i < |FencedBlocks(text, 0)| && loads(Strip(FencedBlocks(text, 0)[i])).Some?
    requires forall j :: 0 <= j < i ==> loads(Strip(FencedBlocks(text, 0)[j])).None?
    ensures ExtractJson(text, loads) == Success(loads(Strip(FencedBlocks(text, 0)[i])).value)
  {
    var bs := StrippedBlocks(text);
    assert loads(bs[i]).Some?;
    var k := FirstParsing(bs, loads);
    assert k.Some?;
    assert !(k.value < i) && !(k.value > i);
    assert FirstParse(bs, loads) == loads(bs[i]);
  }

  /**
   * Priority: whatever is returned comes from the earliest stage with a candidate that
   * parses, and within a stage from its first such candidate.
   */
  lemma ExtractPriority<T>(text: string, loads: string -> Option<T>)
    requires ExtractJson(text, loads).Success?
    ensures var v := ExtractJson(text, loads).value;
            var bs, spans := StrippedBlocks(text), BraceSpans(text, 0);
            || loads(text) == Some(v)
            || (&& loads(text).None?
                && exists i :: 0 <= i < |bs| && loads(bs[i]) == Some(v) && forall j :: 0 <= j < i ==> loads(bs[j]).None?)
            || (&& loads(text).None? && (forall i :: 0 <= i < |bs| ==> loads(bs[i]).None?)
                && exists i :: 0 <= i < |spans| && loads(spans[i]) == Some(v)
                               && forall j :: 0 <= j < i ==> loads(spans[j]).None?)
  {
    assert ExtractJson(text, loads) == Cascade(text, StrippedBlocks(text), BraceSpans(text, 0), loads);
    CascadePriority(text, StrippedBlocks(text), BraceSpans(text, 0), loads);
  }

  /** The decode error is raised exactly when no candidate of any stage parses. */
  lemma ExtractFails<T>(text: string, loads: string -> Option<T>)
    ensures ExtractJson(text, loads).Failure? <==>
              && loads(text).None?
              && (forall i :: 0 <= i < |StrippedBlocks(text)| ==> loads(StrippedBlocks(text)[i]).None?)
              && (forall i :: 0 <= i < |BraceSpans(text, 0)| ==> loads(BraceSpans(text, 0)[i]).None?)
    ensures ExtractJson(text, loads).Failure? ==> ExtractJson(text, loads).error.excerpt == Excerpt(text)
  {
    assert ExtractJson(text, loads) == Cascade(text, StrippedBlocks(text), BraceSpans(text, 0), loads);
    CascadeFails(text, StrippedBlocks(text), BraceSpans(text, 0), loads);
  }
}
