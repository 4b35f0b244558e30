/**
 * The pure helpers of the dialogs in lib/ui_dialogs.py: the two-line label
 * of a profile item, the test for strictly dark grayscale icons, the search
 * filter of the list dialogs and the trimming of a profile dialog's fields.
 * Widgets, painting and image scaling are left out: an icon arrives as the
 * ARGB values of its (already scaled) pixels.
 */
module UiDialogs {
  import opened Wrappers
  import opened Text

  // -------------------------------------------------------------- item labels

  /** `ProfileItemWidget`'s label: a name of two or more words is broken into
      two lines, the first holding the larger half of the words. */
  function SplitName(name: string): (r: string) {
    var ws := Words(name);
    if |ws| > 1 then TwoLineLabel(ws) else name
  }

  /** The words, the first ceil(n/2) of them on the first line and the rest on
      the second, each line joined by single spaces. */
  function TwoLineLabel(ws: seq<string>): string {
    var k := (|ws| + 1) / 2;
    Join(ws[..k], " ") + "\n" + Join(ws[k..], " ")
  }

  /** A name of zero or one word is shown as it is; a longer one becomes two
      lines, the first with ceil(n/2) of its n words and the second with the
      rest, and the label keeps every word in order. */
  lemma {:induction false} SplitNameSpec(name: string)
    ensures var ws := Words(name);
      |ws| <= 1 ==> SplitName(name) == name
    ensures var ws := Words(name);
      var k := (|ws| + 1) / 2;
      |ws| > 1 ==> exists first, second :: TwoLines(SplitName(name), first, second) && Words(first) == ws[..k] && Words(second) == ws[k..]
    ensures Words(SplitName(name)) == Words(name)
  {
    if |Words(name)| > 1 {
      SplitNameLong(name);
    }
  }

  lemma {:induction false} SplitNameLong(name: string)
    requires |Words(name)| > 1
    ensures var ws := Words(name);
      var k := (|ws| + 1) / 2;
      var first, second := Join(ws[..k], " "), Join(ws[k..], " ");
      && TwoLines(SplitName(name), first, second) && Words(first) == ws[..k] && Words(second) == ws[k..]
      && Words(SplitName(name)) == ws
  {
    var ws := Words(name);
    AllWords(name);
    SplitWords(ws);
  }

  lemma {:induction false} AllWords(name: string)
    ensures forall i :: 0 <= i < |Words(name)| ==> IsWord(Words(name)[i])
  {
  }

  /** Breaking a list of two or more words into two lines. */
  lemma {:induction false} SplitWords(ws: seq<string>)
    requires |ws| > 1 && forall i :: 0 <= i < |ws| ==> IsWord(ws[i])
    ensures var k := (|ws| + 1) / 2;
      var first, second := Join(ws[..k], " "), Join(ws[k..], " ");
      TwoLines(TwoLineLabel(ws), first, second) && Words(first) == ws[..k] && Words(second) == ws[k..]
    ensures Words(TwoLineLabel(ws)) == ws
  {
    var k := (|ws| + 1) / 2;
    var a, b := ws[..k], ws[k..];
    WordsSlices(ws, k);
    JoinedLines(a, b);
    var first, second := Join(a, " "), Join(b, " ");
    assert TwoLineLabel(ws) == first + "\n" + second;
    assert TwoLines(TwoLineLabel(ws), first, second);
  }

  lemma {:induction false} WordsSlices(ws: seq<string>, k: nat)
    requires k <= |ws| && forall i :: 0 <= i < |ws| ==> IsWord(ws[i])
    ensures forall i :: 0 <= i < k ==> IsWord(ws[..k][i])
    ensures forall i :: 0 <= i < |ws| - k ==> IsWord(ws[k..][i])
    ensures ws[..k] + ws[k..] == ws
  {
    assert forall i :: 0 <= i < k ==> ws[..k][i] == ws[i];
    assert forall i :: 0 <= i < |ws| - k ==> ws[k..][i] == ws[k + i];
  }

  /** Two runs of words joined into two lines split back into the same words,
      and neither line holds a break. */
  lemma {:induction false} JoinedLines(a: seq<string>, b: seq<string>)
    requires |a| > 0
    requires forall i :: 0 <= i < |a| ==> IsWord(a[i])
    requires forall i :: 0 <= i < |b| ==> IsWord(b[i])
    ensures var first := Join(a, " ");
      var second := Join(b, " ");
      && TwoLines(first + "\n" + second, first, second)
      && Words(first) == a && Words(second) == b
      && Words(first + "\n" + second) == a + b
  {
    var second := Join(b, " ");
    WordsOfJoin(a);
    WordsOfJoin(b);
    WordsOfJoinThen(a, '\n', second);
    forall i | 0 <= i < |a|
      ensures '\n' !in a[i]
    {
      forall j | 0 <= j < |a[i]|
        ensures a[i][j] != '\n'
      {
        assert !IsSpace(a[i][j]);
      }
    }
    forall i | 0 <= i < |b|
      ensures '\n' !in b[i]
    {
      forall j | 0 <= j < |b[i]|
        ensures b[i][j] != '\n'
      {
        assert !IsSpace(b[i][j]);
      }
    }
    JoinAvoids(a, " ", '\n');
    JoinAvoids(b, " ", '\n');
  }

  /** `text` is `first` and `second` on two lines, neither holding a break. */
  predicate TwoLines(text: string, first: string, second: string) {
    text == first + "\n" + second && '\n' !in first && '\n' !in second
  }

  // ------------------------------------------------------ dark grayscale icons

  const DarknessThreshold := 120
  const ColorTolerance := 15
  const VisibleAlpha := 50

  datatype Color = Color(red: int, green: int, blue: int, alpha: int)

  /** The four channels of a 32-bit ARGB pixel value (`QColor.fromRgba`). */
  function Channels(v: nat): Color {
    Color(v / 0x10000 % 0x100, v / 0x100 % 0x100, v % 0x100, v / 0x1000000 % 0x100)
  }

  predicate Visible(c: Color) {
    c.alpha >= VisibleAlpha
  }

  function Max3(a: int, b: int, c: int): int {
    if a >= b && a >= c then a else if b >= c then b else c
  }

  function Min3(a: int, b: int, c: int): int {
    if a <= b && a <= c then a else if b <= c then b else c
  }

  /** Dark (no channel above 120) and gray (channels within 15 of each other). */
  predicate DarkGray(c: Color) {
    && c.red <= DarknessThreshold && c.green <= DarknessThreshold && c.blue <= DarknessThreshold
    && Max3(c.red, c.green, c.blue) - Min3(c.red, c.green, c.blue) <= ColorTolerance
  }

  /** Some pixel is visible, and every visible pixel is dark gray. */
  predicate DarkGrayscale(cs: seq<Color>) {
    && (exists i :: 0 <= i < |cs| && Visible(cs[i]))
    && (forall i :: 0 <= i < |cs| && Visible(cs[i]) ==> DarkGray(cs[i]))
  }

  function Decode(pixels: seq<nat>): (cs: seq<Color>)
    ensures |cs| == |pixels|
    ensures forall i :: 0 <= i < |pixels| ==> cs[i] == Channels(pixels[i])
  {
    seq(|pixels|, i requires 0 <= i < |pixels| => Channels(pixels[i]))
  }

  /** `_is_strictly_dark_grayscale` with transparent pixels skipped: `None` is
      a null image. Pixels are visited in order and the first visible pixel
      that is too bright or too colourful decides. */
  method IsStrictlyDarkGrayscale(image: Option<seq<nat>>) returns (r: bool)
    ensures r <==> image.Some? && DarkGrayscale(Decode(image.value))
  {
    if image.None? {
      return false;
    }
    var pixels := image.value;
    ghost var cs := Decode(pixels);
    var hasVisible := false;
    var i := 0;
    while i < |pixels|
      invariant 0 <= i <= |pixels|
      invariant hasVisible <==> exists j :: 0 <= j < i && Visible(cs[j])
      invariant forall j :: 0 <= j < i && Visible(cs[j]) ==> DarkGray(cs[j])
    {
      var c := Channels(pixels[i]);
      if c.alpha >= VisibleAlpha {
        hasVisible := true;
        if c.red > DarknessThreshold || c.green > DarknessThreshold || c.blue > DarknessThreshold {
          return false;
        }
        if Max3(c.red, c.green, c.blue) - Min3(c.red, c.green, c.blue) > ColorTolerance {
          return false;
        }
      }
      i := i + 1;
    }
    return hasVisible;
  }

  /** A pixel with alpha below 50 never changes the verdict. */
  lemma {:induction false} TransparentIgnored(a: seq<Color>, p: Color, b: seq<Color>)
    requires !Visible(p)
    ensures DarkGrayscale(a + [p] + b) <==> DarkGrayscale(a + b)
  {
    var s := a + [p] + b;
    var t := a + b;
    assert forall i :: 0 <= i < |a| ==> s[i] == t[i];
    assert forall i :: |a| <= i < |t| ==> s[i + 1] == t[i];
    if exists i :: 0 <= i < |t| && Visible(t[i]) {
      var i :| 0 <= i < |t| && Visible(t[i]);
      if i < |a| {
        assert Visible(s[i]);
      } else {
        assert Visible(s[i + 1]);
      }
    }
    if exists i :: 0 <= i < |s| && Visible(s[i]) {
      var i :| 0 <= i < |s| && Visible(s[i]);
      if i < |a| {
        assert Visible(t[i]);
      } else {
        assert i != |a|;
        assert Visible(t[i - 1]);
      }
    }
    if forall i :: 0 <= i < |t| && Visible(t[i]) ==> DarkGray(t[i]) {
      forall i | 0 <= i < |s| && Visible(s[i])
        ensures DarkGray(s[i])
      {
        if i > |a| {
          assert s[i] == t[i - 1];
        }
      }
    }
  }

  /** Each pixel as `QColor(pixel)` reads it: Qt's `QColor(QRgb)` constructor
      keeps red, green and blue and sets alpha to 255. */
  function ChannelsOpaque(v: nat): Color {
    Channels(v).(alpha := 255)
  }

  /** The source's test as written: with every pixel read as opaque, no pixel
      is skipped. */
  predicate DarkGrayscaleAsWritten(image: Option<seq<nat>>) {
    image.Some? && DarkGrayscale(seq(|image.value|, i requires 0 <= i < |image.value| => ChannelsOpaque(image.value[i])))
  }

  /** A fully transparent icon (every pixel 0x00000000) has no visible pixel,
      yet the test as written judges it dark grayscale. */
  lemma {:induction false} TransparentIconCounted(pixels: seq<nat>)
    requires |pixels| > 0 && forall i :: 0 <= i < |pixels| ==> pixels[i] == 0
    ensures DarkGrayscaleAsWritten(Some(pixels))
    ensures !DarkGrayscale(Decode(pixels))
  {
    var cs := seq(|pixels|, i requires 0 <= i < |pixels| => ChannelsOpaque(pixels[i]));
    assert Visible(cs[0]);
    assert forall i :: 0 <= i < |cs| ==> cs[i] == Color(0, 0, 0, 255);
    assert forall i :: 0 <= i < |pixels| ==> Decode(pixels)[i] == Color(0, 0, 0, 0);
  }

  // ------------------------------------------------------------ list filters

  /** `filter_icons` / `filter_list`: an item is hidden when the lower-cased
      search text does not occur in its lower-cased text. */
  function Hidden(filter: string, item: string): bool {
    !Contains(Lower(item), Lower(filter))
  }

  /** The hidden flag of every item of the list, in order. */
  function FilterList(filter: string, items: seq<string>): (r: seq<bool>)
    ensures |r| == |items|
    ensures forall i :: 0 <= i < |items| ==> r[i] == Hidden(filter, items[i])
  {
    seq(|items|, i requires 0 <= i < |items| => Hidden(filter, items[i]))
  }

  /** An empty search shows everything; typing more only hides more; and an
      item whose text contains the search text, in any case, is shown. */
  lemma {:induction false} FilterListSpec(filter: string, more: string, items: seq<string>)
    ensures forall i :: 0 <= i < |items| ==> !FilterList("", items)[i]
    ensures forall i :: 0 <= i < |items| && FilterList(filter, items)[i] ==> FilterList(filter + more, items)[i]
    ensures forall i :: 0 <= i < |items| && Contains(items[i], filter) ==> !FilterList(filter, items)[i]
  {
    forall i | 0 <= i < |items|
      ensures Contains(Lower(items[i]), Lower(""))
    {
      assert ContainsAt(Lower(items[i]), Lower(""), 0);
    }
    forall i | 0 <= i < |items| && Contains(Lower(items[i]), Lower(filter + more))
      ensures Contains(Lower(items[i]), Lower(filter))
    {
      LowerConcat(filter, more);
      ContainsShorter(Lower(items[i]), Lower(filter), Lower(more));
    }
    forall i | 0 <= i < |items| && Contains(items[i], filter)
      ensures Contains(Lower(items[i]), Lower(filter))
    {
      ContainsLower(items[i], filter);
    }
  }

  /** Lower-casing both sides keeps an occurrence. */
  lemma {:induction false} ContainsLower(s: string, w: string)
    requires Contains(s, w)
    ensures Contains(Lower(s), Lower(w))
  {
    var i :| 0 <= i <= |s| - |w| && ContainsAt(s, w, i);
    LowerAt(s);
    LowerAt(w);
    assert forall j :: 0 <= j < |w| ==> Lower(s)[i + j] == Lower(w)[j];
    assert ContainsAt(Lower(s), Lower(w), i);
  }

  // ---------------------------------------------------------- dialog details

  /** The fields `get_details` returns, each with surrounding whitespace
      stripped. The icon path is passed through. */
  datatype Details = Details(name: string, creator: string, url: string, iconPath: Option<string>)

  function GetDetails(name: string, creator: string, url: string, iconPath: Option<string>): (r: Details)
    ensures r.iconPath == iconPath
  {
    Details(Strip(name), Strip(creator), Strip(url), iconPath)
  }

  /** Each returned field is its input with only whitespace removed around it,
      starts and ends with a non-space character (or is empty, for an input of
      whitespace only), and entering the returned values again returns them
      unchanged. */
  lemma {:induction false} GetDetailsSpec(name: string, creator: string, url: string, iconPath: Option<string>)
    ensures var d := GetDetails(name, creator, url, iconPath);
      && Trimmed(name, d.name) && Trimmed(creator, d.creator) && Trimmed(url, d.url)
      && GetDetails(d.name, d.creator, d.url, d.iconPath) == d
  {
    TrimmedStrip(name);
    TrimmedStrip(creator);
    TrimmedStrip(url);
    StripIdempotent(name);
    StripIdempotent(creator);
    StripIdempotent(url);
  }

  /** `t` is `s` without its leading and trailing whitespace. */
  predicate Trimmed(s: string, t: string) {
    && (|t| == 0 <==> IsBlank(s))
    && (|t| == 0 || (!IsSpace(t[0]) && !IsSpace(t[|t| - 1])))
    && exists a, b :: 0 <= a <= b <= |s| && t == s[a..b] && IsBlank(s[..a]) && IsBlank(s[b..])
  }

  lemma {:induction false} TrimmedStrip(s: string)
    ensures Trimmed(s, Strip(s))
  {
    StripEmptyIffBlank(s);
    StripEnds(s);
    if IsBlank(s) {
      assert s[..0] == [] && s[0..] == s;
      assert Strip(s) == s[0..0];
    } else {
      RStripOfLStrip(s);
      LStripShape(s);
      RStripShape(s);
      var a := |s| - |LStrip(s)|;
      var b := |RStrip(s)|;
      BlankEnds(s, a, b);
    }
  }

  lemma {:induction false} BlankEnds(s: string, a: nat, b: nat)
    requires a <= b <= |s|
    requires forall i :: 0 <= i < a ==> IsSpace(s[i])
    requires forall i :: b <= i < |s| ==> IsSpace(s[i])
    ensures IsBlank(s[..a]) && IsBlank(s[b..])
  {
    assert forall i :: 0 <= i < a ==> s[..a][i] == s[i];
    assert forall i :: 0 <= i < |s| - b ==> s[b..][i] == s[b + i];
  }
}
