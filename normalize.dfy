/**
 * Normalisation of a fetched storefront page before any rule is tried:
 * the whole-document text (`_normalize_html_text`) and the text of the
 * "availability info" header block (`_extract_availability_info_block`).
 */
module Normalize {
  import opened Wrappers
  import opened Text

  /**
   * Library behaviour the normaliser delegates to and that is not modelled:
   * `html.unescape` (entity decoding) and the ASCII shadow
   * `unicodedata.normalize("NFKD", s).encode("ascii", "ignore").decode("ascii")`.
   */
  datatype TextLib = TextLib(unescape: string -> string, asciiFold: string -> string)

  /** Unescape, lower-case, turn no-break spaces into spaces, collapse whitespace. */
  function Canonical(lib: TextLib, s: string): (r: string)
    ensures Collapsed(r)
    ensures Visible(r) == Visible(Lower(lib.unescape(s)))
    ensures Words(r) == Words(Lower(lib.unescape(s)))
  {
    var u := ReplaceNbsp(Lower(lib.unescape(s)));
    CollapseKeepsVisible(u);
    VisibleReplaceNbsp(Lower(lib.unescape(s)));
    CollapseKeepsWords(u);
    ReplaceNbspKeepsWords(Lower(lib.unescape(s)));
    CollapseWhitespace(u)
  }

  lemma {:induction false} VisibleReplaceNbsp(s: string)
    ensures Visible(ReplaceNbsp(s)) == Visible(s)
  {
    if s != [] {
      VisibleReplaceNbsp(s[1..]);
      assert ReplaceNbsp(s)[1..] == ReplaceNbsp(s[1..]);
    }
  }

  /** The document text and its ASCII shadow, the pair `_normalize_html_text` returns. */
  datatype Normalized = Normalized(text: string, ascii: string)

  function NormalizeHtmlText(lib: TextLib, s: string): (n: Normalized)
    ensures Collapsed(n.text) && CollapseWhitespace(n.text) == n.text
    ensures Visible(n.text) == Visible(Lower(lib.unescape(s)))
    ensures Words(n.text) == Words(Lower(lib.unescape(s)))
    ensures n.ascii == lib.asciiFold(n.text)
  {
    var t := Canonical(lib, s);
    CollapseFixesCollapsed(t);
    Normalized(t, lib.asciiFold(t))
  }

  // ── the availability info block ───────────────────────────────────────────

  const AvailabilityInfoMarker: string := "data-testid=\"screens.Provider.MenuHeader.availabilityInfo\""
  const DivClose: string := "</div>"

  /**
   * A match of
   * `data-testid="screens\.Provider\.MenuHeader\.availabilityInfo"[^>]*>(.*?)</div>`
   * (with DOTALL): the marker at `m`, the first '>' after it at `p`, a
   * closing `</div>` at `k`; group 1 is `t[p + 1..k]`.
   */
  predicate IsBlockMatch(t: string, m: nat, p: nat, k: nat)
  {
    && OccursAt(t, AvailabilityInfoMarker, m)
    && m + |AvailabilityInfoMarker| <= p < |t| && t[p] == '>'
    && (forall j :: m + |AvailabilityInfoMarker| <= j < p ==> t[j] != '>')
    && p + 1 <= k && OccursAt(t, DivClose, k)
  }

  lemma CharOccurs(t: string, j: nat)
    requires j < |t|
    ensures OccursAt(t, ">", j) <==> t[j] == '>'
  {
    assert t[j..j + 1] == [t[j]];
  }

  /**
   * What `re.search` finds: the marker's first occurrence, the first '>'
   * after it, and the first `</div>` after that ('.' matches newlines).
   */
  function AvailabilityInfoMatch(t: string): (r: Option<(nat, nat, nat)>)
    ensures r.Some? ==> r.value.1 + 1 <= r.value.2 <= |t|
  {
    match FindFrom(t, AvailabilityInfoMarker, 0)
    case None => None
    case Some(m0) =>
      match FindFrom(t, ">", m0 + |AvailabilityInfoMarker|)
      case None => None
      case Some(p0) =>
        match FindFrom(t, DivClose, p0 + 1)
        case None => None
        case Some(k0) => Some((m0, p0, k0))
  }

  /**
   * The match found is a match of the pattern, the one with the leftmost
   * start and, for that start, the shortest group (the lazy `.*?`); when
   * none is found the pattern matches nowhere.
   */
  lemma AvailabilityInfoMatchIsLeftmost(t: string)
    ensures var r := AvailabilityInfoMatch(t);
      && (r.Some? ==> IsBlockMatch(t, r.value.0, r.value.1, r.value.2))
      && (r.Some? ==> forall m, p, k :: IsBlockMatch(t, m, p, k) ==>
            r.value.0 < m || (r.value.0 == m && r.value.1 == p && r.value.2 <= k))
      && (r.None? ==> forall m, p, k :: !IsBlockMatch(t, m, p, k))
  {
    var M := AvailabilityInfoMarker;
    var r := AvailabilityInfoMatch(t);
    forall m, p, k | IsBlockMatch(t, m, p, k)
      ensures r.Some? && (r.value.0 < m || (r.value.0 == m && r.value.1 == p && r.value.2 <= k))
    {
      FindFromFinds(t, M, 0, m);
      var m0 := FindFrom(t, M, 0).value;
      CharOccurs(t, p);
      FindFromFinds(t, ">", m0 + |M|, p);
      var p0 := FindFrom(t, ">", m0 + |M|).value;
      FindFromFinds(t, DivClose, p0 + 1, k);
      if m0 == m {
        CharOccurs(t, p0);
      }
    }
    if r.Some? {
      var (m0, p0, k0) := r.value;
      CharOccurs(t, p0);
      forall j | m0 + |M| <= j < p0 ensures t[j] != '>' {
        CharOccurs(t, j);
      }
    }
  }

  /** A block is extracted exactly when the pattern matches somewhere in the page. */
  lemma AvailabilityInfoFoundIffMatch(t: string)
    ensures AvailabilityInfoMatch(t).Some? <==> exists m, p, k :: IsBlockMatch(t, m, p, k)
  {
    AvailabilityInfoMatchIsLeftmost(t);
    if AvailabilityInfoMatch(t).Some? {
      var mt := AvailabilityInfoMatch(t).value;
      assert IsBlockMatch(t, mt.0, mt.1, mt.2);
    }
  }

  /** Group 1 of the match: the text between the first '>' after the marker and the `</div>` found. */
  function AvailabilityInfoGroup(t: string): (g: Option<string>)
    ensures g.Some? <==> AvailabilityInfoMatch(t).Some?
  {
    match AvailabilityInfoMatch(t)
    case None => None
    case Some((m, p, k)) => Some(t[p + 1..k])
  }

  /**
   * `_extract_availability_info_block`: group 1 of the match with its tags
   * replaced by spaces, then unescaped, lower-cased and whitespace-collapsed.
   */
  function ExtractAvailabilityInfoBlock(lib: TextLib, t: string): (r: Option<string>)
    ensures r.Some? <==> AvailabilityInfoMatch(t).Some?
    ensures r.Some? ==> Collapsed(r.value)
    ensures r.Some? ==> r.value == Canonical(lib, StripTags(AvailabilityInfoGroup(t).value))
  {
    match AvailabilityInfoGroup(t)
    case None => None
    case Some(g) => Some(Canonical(lib, StripTags(g)))
  }

  /**
   * Everything `classify_with_reason` derives from the page before trying a
   * rule: the raw page, the document text and its ASCII shadow, the block
   * text and the block's ASCII shadow (computed only when the block text is
   * non-empty, as `if avail_frag` does).
   */
  datatype Page = Page(raw: string, text: string, textAscii: string,
                       availInfo: Option<string>, availInfoAscii: Option<string>)

  function PreparePage(lib: TextLib, html: string): (pg: Page)
    ensures pg.raw == html && Collapsed(pg.text) && pg.textAscii == lib.asciiFold(pg.text)
    ensures pg.availInfo.Some? <==> AvailabilityInfoMatch(html).Some?
    ensures pg.availInfoAscii.Some? <==> pg.availInfo.Some? && pg.availInfo.value != []
    ensures pg.availInfoAscii.Some? ==> pg.availInfoAscii.value == lib.asciiFold(pg.availInfo.value)
  {
    var n := NormalizeHtmlText(lib, html);
    var frag := ExtractAvailabilityInfoBlock(lib, html);
    var fragAscii := if frag.Some? && frag.value != [] then Some(lib.asciiFold(frag.value)) else None;
    Page(html, n.text, n.ascii, frag, fragAscii)
  }
}
