/**
 * Small string helpers of the mod manager (main.py): file-name sanitising, the
 * UTF-8 byte-bounded truncation of a search name, the one-click install link
 * parser, and the mod-list search filter.
 */
module ManagerHelpers {
  import opened Text
  import opened Wrappers

  // ---------------------------------------------------------------- sanitising

  /** The characters `_sanitize_filename` removes: its regular expression's
      character class. */
  const Forbidden: set<char> := {'\\', '/', '*', '?', ':', '"', '<', '>', '|'}

  /** `_sanitize_filename`: delete every forbidden character. */
  function Sanitize(name: string): (r: string)
    ensures |r| <= |name|
    ensures forall i :: 0 <= i < |r| ==> r[i] !in Forbidden
  {
    if |name| == 0 then ""
    else (if name[0] in Forbidden then "" else [name[0]]) + Sanitize(name[1..])
  }

  /** Sanitising works piece by piece, so it keeps the order of what it keeps. */
  lemma {:induction false} SanitizeConcat(a: string, b: string)
    ensures Sanitize(a + b) == Sanitize(a) + Sanitize(b)
  {
    if |a| > 0 {
      assert (a + b)[1..] == a[1..] + b;
      SanitizeConcat(a[1..], b);
    } else {
      assert a + b == b;
    }
  }

  /** Every allowed character is kept as often as it occurs; no forbidden one survives. */
  lemma {:induction false} SanitizeCounts(name: string, c: char)
    ensures c !in Forbidden ==> multiset(Sanitize(name))[c] == multiset(name)[c]
    ensures c in Forbidden ==> multiset(Sanitize(name))[c] == 0
  {
    if |name| > 0 {
      SanitizeCounts(name[1..], c);
      var head := if name[0] in Forbidden then "" else [name[0]];
      assert Sanitize(name) == head + Sanitize(name[1..]);
      assert multiset(Sanitize(name)) == multiset(head) + multiset(Sanitize(name[1..]));
      assert name == [name[0]] + name[1..];
      assert multiset(name) == multiset([name[0]]) + multiset(name[1..]);
    }
  }

  /** A name without forbidden characters is left alone, so sanitising twice is sanitising once. */
  lemma {:induction false} SanitizeFixed(name: string)
    requires forall i :: 0 <= i < |name| ==> name[i] !in Forbidden
    ensures Sanitize(name) == name
  {
    if |name| > 0 {
      SanitizeFixed(name[1..]);
      assert name == [name[0]] + name[1..];
    }
  }

  lemma {:induction false} SanitizeIdempotent(name: string)
    ensures Sanitize(Sanitize(name)) == Sanitize(name)
  {
    SanitizeFixed(Sanitize(name));
  }

  // ------------------------------------------------------- UTF-8 byte budgeting

  /** The search API's limit on the name's encoded length. */
  const ApiByteMaxLength := 50

  /** Octets in the UTF-8 encoding of one character, by the ranges of the table
      in section 3 of RFC 3629. */
  function CharBytes(c: char): (n: nat)
    ensures 1 <= n <= 4
  {
    if c as int < 0x80 then 1
    else if c as int < 0x800 then 2
    else if c as int < 0x1_0000 then 3
    else 4
  }

  /** `len(s.encode('utf-8'))`. */
  function ByteLen(s: string): (n: nat)
    ensures n >= |s|
  {
    if |s| == 0 then 0 else ByteLen(s[..|s| - 1]) + CharBytes(s[|s| - 1])
  }

  lemma {:induction false} ByteLenSnoc(s: string, i: nat)
    requires i < |s|
    ensures ByteLen(s[..i + 1]) == ByteLen(s[..i]) + CharBytes(s[i])
  {
    assert s[..i + 1][..i] == s[..i];
  }

  /** The encoded length grows with the prefix taken. */
  lemma {:induction false} ByteLenMonotone(s: string, i: nat, k: nat)
    requires i <= k <= |s|
    ensures ByteLen(s[..i]) <= ByteLen(s[..k])
    decreases k - i
  {
    if i < k {
      ByteLenSnoc(s, i);
      ByteLenMonotone(s, i + 1, k);
    }
  }

  lemma {:induction false} ByteLenConcat(a: string, b: string)
    ensures ByteLen(a + b) == ByteLen(a) + ByteLen(b)
    decreases |b|
  {
    if |b| > 0 {
      var b' := b[..|b| - 1];
      assert (a + b)[..|a + b| - 1] == a + b';
      ByteLenConcat(a, b');
    } else {
      assert a + b == a;
    }
  }

  /** The search name `update_mod` sends: the name itself when it fits in
      `limit` bytes, otherwise the characters taken from the front until the
      next one would overflow the limit. */
  method TruncateUtf8(name: string, limit: nat) returns (r: string)
    ensures |r| <= |name| && r == name[..|r|]
    ensures ByteLen(name) <= limit ==> r == name
    ensures ByteLen(name) > limit ==> ByteLen(r) <= limit && |r| < |name|
    ensures forall k :: |r| < k <= |name| ==> ByteLen(name[..k]) > limit
  {
    r := name;
    assert name[..|name|] == name;
    if ByteLen(name) > limit {
      var i := 0;
      var used := 0;
      while i < |name| && used + CharBytes(name[i]) <= limit
        invariant 0 <= i <= |name|
        invariant used == ByteLen(name[..i]) && used <= limit
      {
        ByteLenSnoc(name, i);
        used := used + CharBytes(name[i]);
        i := i + 1;
      }
      r := name[..i];
      forall k | i < k <= |name|
        ensures ByteLen(name[..k]) > limit
      {
        ByteLenSnoc(name, i);
        ByteLenMonotone(name, i + 1, k);
      }
    }
  }

  // ----------------------------------------------------------- one-click links

  const Scheme := "mimm:"
  const Marker := "mmdl/"
  const ModSep := ",Mod,"

  /** The two ids a one-click link carries. */
  datatype OneClick = OneClick(fileId: string, modId: string)

  predicate AllDigits(s: string) {
    forall i :: 0 <= i < |s| ==> IsDigit(s[i])
  }

  /** Length of the longest run of digits starting at `i` (`\d+` is greedy). */
  function DigitRun(s: string, i: nat): (n: nat)
    requires i <= |s|
    ensures i + n <= |s|
    ensures forall j :: i <= j < i + n ==> IsDigit(s[j])
    ensures i + n == |s| || !IsDigit(s[i + n])
    decreases |s| - i
  {
    if i == |s| || !IsDigit(s[i]) then 0 else 1 + DigitRun(s, i + 1)
  }

  lemma {:induction false} DigitRunExact(s: string, i: nat, n: nat)
    requires i + n <= |s|
    requires forall j :: i <= j < i + n ==> IsDigit(s[j])
    requires i + n == |s| || !IsDigit(s[i + n])
    ensures DigitRun(s, i) == n
    decreases n
  {
    if n > 0 {
      DigitRunExact(s, i + 1, n - 1);
    }
  }

  /** `w` occurs in `url` at index `i`, compared character by character. */
  predicate HasAt(url: string, w: string, i: nat) {
    i + |w| <= |url| && forall k :: 0 <= k < |w| ==> url[i + k] == w[k]
  }

  /** The pattern `mmdl/(\d+),Mod,(\d+)` matched at index `i`. */
  function MatchAt(url: string, i: nat): Option<OneClick>
    requires i <= |url|
  {
    if !HasAt(url, Marker, i) then None
    else
      var a := i + |Marker|;
      var n := DigitRun(url, a);
      if n == 0 || !HasAt(url, ModSep, a + n) then None
      else
        var c := a + n + |ModSep|;
        var m := DigitRun(url, c);
        if m == 0 then None
        else Some(OneClick(url[a..a + n], url[c..c + m]))
  }

  /** A match carries two non-empty digit strings and sits at its index. */
  lemma {:induction false} MatchAtSound(url: string, i: nat)
    requires i <= |url| && MatchAt(url, i).Some?
    ensures var r := MatchAt(url, i).value;
      && |r.fileId| > 0 && AllDigits(r.fileId) && |r.modId| > 0 && AllDigits(r.modId)
      && ContainsAt(url, Marker + r.fileId + ModSep + r.modId, i)
  {
    MatchAtParts(url, i);
    var r := MatchAt(url, i).value;
    LinkAt(url, i, r.fileId, r.modId);
  }

  /** Two digit runs laid out around `,Mod,` after `mmdl/` form a match. */
  lemma {:induction false} LinkAt(url: string, i: nat, fileId: string, modId: string)
    requires var a := i + |Marker|;
      var c := a + |fileId| + |ModSep|;
      && c + |modId| <= |url| && HasAt(url, Marker, i) && HasAt(url, ModSep, a + |fileId|)
      && fileId == url[a..a + |fileId|] && modId == url[c..c + |modId|]
      && (forall j :: a <= j < a + |fileId| ==> IsDigit(url[j]))
      && (forall j :: c <= j < c + |modId| ==> IsDigit(url[j]))
    ensures AllDigits(fileId) && AllDigits(modId) && ContainsAt(url, Marker + fileId + ModSep + modId, i)
  {
    var a := i + |Marker|;
    var c := a + |fileId| + |ModSep|;
    RunDigits(url, a, |fileId|);
    RunDigits(url, c, |modId|);
    SliceHasAt(url, a, a + |fileId|);
    SliceHasAt(url, c, c + |modId|);
    Assemble(url, i, fileId, modId);
  }

  /** The pieces of a link laid out one after the other form its match. */
  lemma {:induction false} Assemble(url: string, i: nat, fileId: string, modId: string)
    requires HasAt(url, Marker, i) && HasAt(url, fileId, i + |Marker|)
    requires HasAt(url, ModSep, i + |Marker| + |fileId|)
    requires HasAt(url, modId, i + |Marker| + |fileId| + |ModSep|)
    ensures ContainsAt(url, Marker + fileId + ModSep + modId, i)
  {
    HasAtConcat(url, Marker, fileId, i);
    HasAtConcat(url, Marker + fileId, ModSep, i);
    HasAtConcat(url, Marker + fileId + ModSep, modId, i);
    HasAtContainsAt(url, Marker + fileId + ModSep + modId, i);
  }

  lemma {:induction false} MatchAtParts(url: string, i: nat)
    requires i <= |url| && MatchAt(url, i).Some?
    ensures var a := i + |Marker|;
      var n := DigitRun(url, a);
      var c := a + n + |ModSep|;
      var m := DigitRun(url, c);
      && n > 0 && m > 0 && HasAt(url, Marker, i) && HasAt(url, ModSep, a + n)
      && MatchAt(url, i).value == OneClick(url[a..a + n], url[c..c + m])
  {
  }

  lemma {:induction false} RunDigits(s: string, a: nat, n: nat)
    requires a + n <= |s| && forall j :: a <= j < a + n ==> IsDigit(s[j])
    ensures AllDigits(s[a..a + n])
  {
    var t := s[a..a + n];
    forall k | 0 <= k < n
      ensures IsDigit(t[k])
    {
      assert t[k] == s[a + k];
    }
  }

  lemma {:induction false} SliceHasAt(s: string, a: nat, b: nat)
    requires a <= b <= |s|
    ensures HasAt(s, s[a..b], a)
  {
    forall k | 0 <= k < b - a
      ensures s[a + k] == s[a..b][k]
    {
    }
  }

  lemma {:induction false} HasAtConcat(s: string, u: string, v: string, i: nat)
    requires HasAt(s, u, i) && HasAt(s, v, i + |u|)
    ensures HasAt(s, u + v, i)
  {
    forall k | 0 <= k < |u + v|
      ensures s[i + k] == (u + v)[k]
    {
      if k >= |u| {
        assert s[(i + |u|) + (k - |u|)] == v[k - |u|];
      }
    }
  }

  lemma {:induction false} HasAtContainsAt(s: string, w: string, i: nat)
    requires HasAt(s, w, i)
    ensures ContainsAt(s, w, i)
  {
    var t := s[i..i + |w|];
    assert forall k :: 0 <= k < |w| ==> t[k] == s[i + k];
  }

  /** Where the pattern matches, index by index. */
  function Matches(url: string): (ms: seq<bool>)
    ensures |ms| == |url|
    ensures forall j :: 0 <= j < |url| ==> (ms[j] <==> MatchAt(url, j).Some?)
  {
    seq(|url|, j requires 0 <= j < |url| => MatchAt(url, j).Some?)
  }

  /** The first `true` at or after `i`. */
  function FirstTrue(bs: seq<bool>, i: nat): (r: Option<nat>)
    requires i <= |bs|
    ensures r.Some? ==> i <= r.value < |bs| && bs[r.value]
    ensures r.Some? ==> forall j :: i <= j < r.value ==> !bs[j]
    ensures r.None? ==> forall j :: i <= j < |bs| ==> !bs[j]
    decreases |bs| - i
  {
    if i == |bs| then None
    else if bs[i] then Some(i)
    else FirstTrue(bs, i + 1)
  }

  lemma {:induction false} FirstTrueAt(bs: seq<bool>, i: nat, k: nat)
    requires i <= k < |bs| && bs[k]
    requires forall j :: i <= j < k ==> !bs[j]
    ensures FirstTrue(bs, i) == Some(k)
    decreases k - i
  {
    if i < k {
      FirstTrueAt(bs, i + 1, k);
    }
  }

  /** `process_startup_url`: a `mimm:` link in which `mmdl/<file>,Mod,<mod>`
      occurs yields the ids of the leftmost occurrence (`re.search`); anything
      else is ignored. */
  function ParseStartupUrl(url: string): (r: Option<OneClick>)
    ensures !StartsWith(url, Scheme) ==> r.None?
    ensures StartsWith(url, Scheme) && r.None? ==> forall j :: 0 <= j < |url| ==> MatchAt(url, j).None?
    ensures r.Some? ==>
      exists j :: 0 <= j < |url| && r == MatchAt(url, j) && (forall j' :: 0 <= j' < j ==> MatchAt(url, j').None?)
  {
    if !StartsWith(url, Scheme) then None
    else
      match FirstTrue(Matches(url), 0)
      case Some(j) => MatchAt(url, j)
      case None => None
  }

  /** What the parser returns is really in the link: two non-empty digit
      strings around `,Mod,`, right after `mmdl/`. */
  lemma {:induction false} ParseStartupUrlSound(url: string)
    requires ParseStartupUrl(url).Some?
    ensures var r := ParseStartupUrl(url).value;
      && StartsWith(url, Scheme)
      && |r.fileId| > 0 && AllDigits(r.fileId) && |r.modId| > 0 && AllDigits(r.modId)
      && Contains(url, Marker + r.fileId + ModSep + r.modId)
  {
    var j := FirstTrue(Matches(url), 0).value;
    MatchAtSound(url, j);
  }

  /** The pattern matches at `i` with exactly the digit runs laid out after it. */
  lemma {:induction false} MatchAtExact(url: string, i: nat, fileId: string, modId: string)
    requires |fileId| > 0 && AllDigits(fileId) && |modId| > 0 && AllDigits(modId)
    requires HasAt(url, Marker, i) && HasAt(url, fileId, i + |Marker|)
    requires HasAt(url, ModSep, i + |Marker| + |fileId|)
    requires HasAt(url, modId, i + |Marker| + |fileId| + |ModSep|)
    requires var e := i + |Marker| + |fileId| + |ModSep| + |modId|; e == |url| || !IsDigit(url[e])
    ensures MatchAt(url, i) == Some(OneClick(fileId, modId))
  {
    var a := i + |Marker|;
    var b := a + |fileId|;
    var c := b + |ModSep|;
    assert url[b] == ModSep[0];
    forall j | a <= j < b
      ensures IsDigit(url[j])
    {
      assert url[a + (j - a)] == fileId[j - a];
    }
    forall j | c <= j < c + |modId|
      ensures IsDigit(url[j])
    {
      assert url[c + (j - c)] == modId[j - c];
    }
    DigitRunExact(url, a, |fileId|);
    DigitRunExact(url, c, |modId|);
    assert url[a..b] == fileId;
    assert url[c..c + |modId|] == modId;
  }

  /** No match starts inside `mimm:` followed by a lead-in without the letter `m`. */
  lemma {:induction false} NoMatchInLead(url: string, lead: string)
    requires HasAt(url, Scheme, 0) && HasAt(url, lead, |Scheme|) && 'm' !in lead
    requires |Scheme| + |lead| < |url|
    ensures forall j :: 0 <= j < |Scheme| + |lead| ==> MatchAt(url, j).None?
  {
    forall j | 0 <= j < |Scheme| + |lead|
      ensures !HasAt(url, Marker, j)
    {
      if j < |Scheme| {
        assert url[1] == Scheme[1] && url[4] == Scheme[4];
        if j == 0 {
          assert url[j + 1] != Marker[1];
        } else if j == 1 || j == 4 {
          assert url[j] != Marker[0];
        } else if j == 2 {
          assert url[j + 2] != Marker[2];
        } else {
          assert url[j + 1] != Marker[1];
        }
      } else {
        assert url[j] == lead[j - |Scheme|];
        assert lead[j - |Scheme|] in lead;
        assert url[j] != Marker[0];
      }
    }
  }

  /** The link a download page hands over, `mimm:` + a lead-in without the
      letter `m` + `mmdl/<file>,Mod,<mod>` + a tail not starting with a digit,
      yields exactly its two ids. */
  lemma {:induction false} OneClickLink(lead: string, fileId: string, modId: string, tail: string)
    requires 'm' !in lead
    requires |fileId| > 0 && AllDigits(fileId) && |modId| > 0 && AllDigits(modId)
    requires |tail| == 0 || !IsDigit(tail[0])
    ensures ParseStartupUrl(Scheme + lead + Marker + fileId + ModSep + modId + tail) == Some(OneClick(fileId, modId))
  {
    LinkPieces(lead, fileId, modId, tail);
    LinkParsed(Scheme + lead + Marker + fileId + ModSep + modId + tail, lead, fileId, modId, tail);
  }

  /** The same, for a link given by where its pieces sit. */
  lemma {:induction false} LinkParsed(url: string, lead: string, fileId: string, modId: string, tail: string)
    requires 'm' !in lead
    requires |fileId| > 0 && AllDigits(fileId) && |modId| > 0 && AllDigits(modId)
    requires |tail| == 0 || !IsDigit(tail[0])
    requires var i := |Scheme| + |lead|;
      var e := i + |Marker| + |fileId| + |ModSep| + |modId|;
      && StartsWith(url, Scheme) && HasAt(url, Scheme, 0) && HasAt(url, lead, |Scheme|)
      && HasAt(url, Marker, i) && HasAt(url, fileId, i + |Marker|)
      && HasAt(url, ModSep, i + |Marker| + |fileId|)
      && HasAt(url, modId, i + |Marker| + |fileId| + |ModSep|)
      && |url| == e + |tail| && (|tail| > 0 ==> url[e] == tail[0])
    ensures ParseStartupUrl(url) == Some(OneClick(fileId, modId))
  {
    var i := |Scheme| + |lead|;
    MatchAtExact(url, i, fileId, modId);
    NoMatchInLead(url, lead);
    ParseAt(url, i);
  }

  /** A link whose leftmost match is at `i` yields that match. */
  lemma {:induction false} ParseAt(url: string, i: nat)
    requires StartsWith(url, Scheme) && i < |url| && MatchAt(url, i).Some?
    requires forall j :: 0 <= j < i ==> MatchAt(url, j).None?
    ensures ParseStartupUrl(url) == MatchAt(url, i)
  {
    FirstTrueAt(Matches(url), 0, i);
  }

  /** Where each piece of such a link sits. */
  lemma {:induction false} LinkPieces(lead: string, fileId: string, modId: string, tail: string)
    ensures var url := Scheme + lead + Marker + fileId + ModSep + modId + tail;
      var i := |Scheme| + |lead|;
      var e := i + |Marker| + |fileId| + |ModSep| + |modId|;
      && StartsWith(url, Scheme) && HasAt(url, Scheme, 0) && HasAt(url, lead, |Scheme|)
      && HasAt(url, Marker, i) && HasAt(url, fileId, i + |Marker|)
      && HasAt(url, ModSep, i + |Marker| + |fileId|)
      && HasAt(url, modId, i + |Marker| + |fileId| + |ModSep|)
      && |url| == e + |tail| && (|tail| > 0 ==> url[e] == tail[0])
  {
    var url := Scheme + lead + Marker + fileId + ModSep + modId + tail;
    assert url[..|Scheme|] == Scheme;
  }

  // --------------------------------------------------------------- mod filter

  /** A row of the mods list, by the fields the filter reads; `None` where the
      entry lacks the field. */
  datatype ModEntry = ModEntry(slot: Option<int>, displayName: Option<string>, name: Option<string>)

  /** `mod_info.get("display_name") or mod_info.get("name", "")`. */
  function SearchableName(e: ModEntry): string {
    if e.displayName.Some? && e.displayName.value != "" then e.displayName.value else e.name.GetOr("")
  }

  /** `filter_mods_list`: the slot-0 ("no mod") row always shows; any other row
      hides exactly when the lower-cased filter text is not in its lower-cased name. */
  predicate Hidden(e: ModEntry, filterText: string) {
    e.slot != Some(0) && !Contains(Lower(SearchableName(e)), Lower(filterText))
  }

  function FilterMods(entries: seq<ModEntry>, filterText: string): (hidden: seq<bool>)
    ensures |hidden| == |entries|
    ensures forall i :: 0 <= i < |entries| ==> (hidden[i] <==> Hidden(entries[i], filterText))
  {
    seq(|entries|, i requires 0 <= i < |entries| => Hidden(entries[i], filterText))
  }

  /** An empty filter shows every row, and typing more only hides more. */
  lemma {:induction false} FilterNarrows(entries: seq<ModEntry>, f: string, g: string)
    ensures forall i :: 0 <= i < |entries| ==> !FilterMods(entries, "")[i]
    ensures forall i :: 0 <= i < |entries| && FilterMods(entries, f)[i] ==> FilterMods(entries, f + g)[i]
  {
    forall i | 0 <= i < |entries|
      ensures !Hidden(entries[i], "")
    {
      assert ContainsAt(Lower(SearchableName(entries[i])), Lower(""), 0);
    }
    LowerConcat(f, g);
    forall i | 0 <= i < |entries| && Hidden(entries[i], f)
      ensures Hidden(entries[i], f + g)
    {
      if Contains(Lower(SearchableName(entries[i])), Lower(f + g)) {
        ContainsShorter(Lower(SearchableName(entries[i])), Lower(f), Lower(g));
      }
    }
  }
}
