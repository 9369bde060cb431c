/**
 * The container block's editor: the class list and inline style of its main
 * element, derived from the block attributes, and the attribute updates made
 * by its toolbar and inspector callbacks.
 */
module ContainerEdit {
  import opened Wrappers

  /** The block attributes the editor reads; `None` is an undefined attribute. */
  datatype Attributes = Attributes(
    contentAlign: Option<string>,
    textColor: Option<string>,
    backgroundColor: Option<string>,
    backgroundImageID: Option<int>,
    backgroundImageURL: Option<string>,
    backgroundOpacity: Option<int>,
    fixedBackground: Option<bool>,
    height: Option<string>,
    contentLocation: Option<string>,
    verticalAlign: Option<string>,
    contentWidth: Option<bool>,
    borderRadius: Option<int>,
    shadow: Option<int>)

  /** JavaScript truthiness of a string attribute: defined and non-empty. */
  predicate Truthy(v: Option<string>) {
    v.Some? && v.value != ""
  }

  /** JavaScript truthiness of a boolean attribute. */
  predicate IsTrue(v: Option<bool>) {
    v == Some(true)
  }

  /** A string attribute interpolated into a template literal. */
  function Interpolated(v: Option<string>): string {
    if v.Some? then v.value else "undefined"
  }

  function Digit(d: nat): char
    requires d < 10
  {
    "0123456789"[d]
  }

  function Digits(n: nat): (r: string)
    ensures |r| > 0
  {
    if n < 10 then [Digit(n)] else Digits(n / 10) + [Digit(n % 10)]
  }

  /** The decimal text of an integer, as JavaScript prints it. */
  function NumberText(n: int): string {
    if n < 0 then "-" + Digits(-n) else Digits(n)
  }

  /** `shadow` with its destructuring default of 3. */
  function Shadow(a: Attributes): int {
    a.shadow.GetOr(3)
  }

  /** `borderRadius` with its destructuring default of 12. */
  function BorderRadius(a: Attributes): int {
    a.borderRadius.GetOr(12)
  }

  /**
   * The background-opacity class. `Math.round` leaves an integer opacity as
   * it is; an undefined opacity rounds to `NaN`.
   */
  function OpacityClass(opacity: Option<int>): string {
    "ugb--background-opacity-" + if opacity.Some? then NumberText(opacity.value) else "NaN"
  }

  /** One key of the object given to `classnames`, with the truth of its value. */
  datatype ClassEntry = ClassEntry(name: string, on: bool)

  /** The conditional class object, in the order its keys are written. */
  function ClassObject(a: Attributes): seq<ClassEntry> {
    [ ClassEntry("ugb-container--content-" + Interpolated(a.contentAlign), Truthy(a.contentAlign)),
      ClassEntry("ugb--has-background",
                 (Truthy(a.backgroundColor) && a.backgroundColor.value != "transparent") || Truthy(a.backgroundImageURL)),
      ClassEntry("ugb--has-background-image", Truthy(a.backgroundImageURL)),
      ClassEntry("ugb-container--height-" + Interpolated(a.height), Truthy(a.height)),
      ClassEntry("ugb-container--align-horizontal-" + Interpolated(a.contentLocation), Truthy(a.contentLocation)),
      ClassEntry("ugb--content-width", IsTrue(a.contentWidth)),
      ClassEntry("ugb--shadow-" + NumberText(Shadow(a)), Shadow(a) != 3) ]
  }

  /** `classnames` on an object: the keys whose value is truthy, in order. */
  function Classnames(obj: seq<ClassEntry>): (r: seq<string>)
    ensures |r| <= |obj|
    ensures forall c :: c in r <==> ClassEntry(c, true) in obj
  {
    if obj == [] then []
    else (if obj[0].on then [obj[0].name] else []) + Classnames(obj[1..])
  }

  /**
   * Two strings with different fixed prefixes differ when the prefixes
   * disagree at some position.
   */
  lemma PrefixesDiffer(p: string, s: string, q: string, t: string, i: nat)
    requires i < |p| && i < |q| && p[i] != q[i]
    ensures p + s != q + t
  {
    assert (p + s)[i] == p[i];
    assert (q + t)[i] == q[i];
  }

  /** Equal strings with a common prefix have equal remainders. */
  lemma SamePrefix(p: string, s: string, t: string)
    requires p + s == p + t
    ensures s == t
  {
    assert s == (p + s)[|p|..];
    assert t == (p + t)[|p|..];
  }

  /** The classes that depend on the attributes: at most one per key. */
  function ConditionalClasses(a: Attributes): (r: seq<string>)
    ensures |r| <= 7
    ensures forall c :: c in r <==> ClassEntry(c, true) in ClassObject(a)
  {
    Classnames(ClassObject(a))
  }

  /** Membership in the conditional classes, key by key. */
  lemma InConditionalClasses(a: Attributes, c: string)
    ensures var obj := ClassObject(a);
            c in ConditionalClasses(a) <==>
              || (obj[0].on && c == obj[0].name) || (obj[1].on && c == obj[1].name)
              || (obj[2].on && c == obj[2].name) || (obj[3].on && c == obj[3].name)
              || (obj[4].on && c == obj[4].name) || (obj[5].on && c == obj[5].name)
              || (obj[6].on && c == obj[6].name)
  {
    InSevenEntries(ClassObject(a), c);
  }

  /** An entry is switched on in a seven-key class object exactly when one of its keys is it. */
  lemma InSevenEntries(obj: seq<ClassEntry>, c: string)
    requires |obj| == 7
    ensures ClassEntry(c, true) in obj <==>
              || (obj[0].on && c == obj[0].name) || (obj[1].on && c == obj[1].name)
              || (obj[2].on && c == obj[2].name) || (obj[3].on && c == obj[3].name)
              || (obj[4].on && c == obj[4].name) || (obj[5].on && c == obj[5].name)
              || (obj[6].on && c == obj[6].name)
  {
    if ClassEntry(c, true) in obj {
      var i :| 0 <= i < |obj| && obj[i] == ClassEntry(c, true);
    }
  }

  /** `ugb-container--content-<a>` is present exactly for a set content alignment `a`. */
  lemma ContentAlignClass(a: Attributes, s: string)
    ensures "ugb-container--content-" + s in ConditionalClasses(a) <==> a.contentAlign == Some(s) && s != ""
  {
    var c := "ugb-container--content-" + s;
    PrefixesDiffer("ugb-container--content-", s, "ugb--has-background", "", 4);
    PrefixesDiffer("ugb-container--content-", s, "ugb--has-background-image", "", 4);
    PrefixesDiffer("ugb-container--content-", s, "ugb-container--height-", Interpolated(a.height), 15);
    PrefixesDiffer("ugb-container--content-", s, "ugb-container--align-horizontal-", Interpolated(a.contentLocation), 15);
    PrefixesDiffer("ugb-container--content-", s, "ugb--content-width", "", 4);
    PrefixesDiffer("ugb-container--content-", s, "ugb--shadow-", NumberText(Shadow(a)), 4);
    InConditionalClasses(a, c);
    if c == "ugb-container--content-" + Interpolated(a.contentAlign) {
      SamePrefix("ugb-container--content-", s, Interpolated(a.contentAlign));
    }
  }

  /**
   * `ugb--has-background` is present exactly when there is a background image
   * or a background colour other than `transparent`.
   */
  lemma HasBackgroundClass(a: Attributes)
    ensures "ugb--has-background" in ConditionalClasses(a) <==>
              Truthy(a.backgroundImageURL) || (Truthy(a.backgroundColor) && a.backgroundColor.value != "transparent")
  {
    var c := "ugb--has-background";
    PrefixesDiffer(c, "", "ugb-container--content-", Interpolated(a.contentAlign), 4);
    PrefixesDiffer(c, "", "ugb-container--height-", Interpolated(a.height), 4);
    PrefixesDiffer(c, "", "ugb-container--align-horizontal-", Interpolated(a.contentLocation), 4);
    PrefixesDiffer(c, "", "ugb--shadow-", NumberText(Shadow(a)), 5);
    InConditionalClasses(a, c);
  }

  /** `ugb--has-background-image` is present exactly when there is a background image. */
  lemma HasBackgroundImageClass(a: Attributes)
    ensures "ugb--has-background-image" in ConditionalClasses(a) <==> Truthy(a.backgroundImageURL)
  {
    var c := "ugb--has-background-image";
    PrefixesDiffer(c, "", "ugb-container--content-", Interpolated(a.contentAlign), 4);
    PrefixesDiffer(c, "", "ugb-container--height-", Interpolated(a.height), 4);
    PrefixesDiffer(c, "", "ugb-container--align-horizontal-", Interpolated(a.contentLocation), 4);
    PrefixesDiffer(c, "", "ugb--shadow-", NumberText(Shadow(a)), 5);
    PrefixesDiffer(c, "", "ugb--content-width", "", 5);
    assert c != "ugb--has-background" by { assert |c| != |"ugb--has-background"|; }
    InConditionalClasses(a, c);
  }

  /** `ugb-container--height-<h>` is present exactly for a set height `h`. */
  lemma HeightClass(a: Attributes, s: string)
    ensures "ugb-container--height-" + s in ConditionalClasses(a) <==> a.height == Some(s) && s != ""
  {
    var c := "ugb-container--height-" + s;
    PrefixesDiffer("ugb-container--height-", s, "ugb--has-background", "", 4);
    PrefixesDiffer("ugb-container--height-", s, "ugb--has-background-image", "", 4);
    PrefixesDiffer("ugb-container--height-", s, "ugb-container--content-", Interpolated(a.contentAlign), 15);
    PrefixesDiffer("ugb-container--height-", s, "ugb-container--align-horizontal-", Interpolated(a.contentLocation), 15);
    PrefixesDiffer("ugb-container--height-", s, "ugb--content-width", "", 4);
    PrefixesDiffer("ugb-container--height-", s, "ugb--shadow-", NumberText(Shadow(a)), 4);
    InConditionalClasses(a, c);
    if c == "ugb-container--height-" + Interpolated(a.height) {
      SamePrefix("ugb-container--height-", s, Interpolated(a.height));
    }
  }

  /** `ugb-container--align-horizontal-<l>` is present exactly for a set content location `l`. */
  lemma ContentLocationClass(a: Attributes, s: string)
    ensures "ugb-container--align-horizontal-" + s in ConditionalClasses(a) <==> a.contentLocation == Some(s) && s != ""
  {
    var p := "ugb-container--align-horizontal-";
    var c := p + s;
    PrefixesDiffer(p, s, "ugb--has-background", "", 4);
    PrefixesDiffer(p, s, "ugb--has-background-image", "", 4);
    PrefixesDiffer(p, s, "ugb-container--content-", Interpolated(a.contentAlign), 15);
    PrefixesDiffer(p, s, "ugb-container--height-", Interpolated(a.height), 15);
    PrefixesDiffer(p, s, "ugb--content-width", "", 4);
    PrefixesDiffer(p, s, "ugb--shadow-", NumberText(Shadow(a)), 4);
    InConditionalClasses(a, c);
    if c == p + Interpolated(a.contentLocation) {
      SamePrefix(p, s, Interpolated(a.contentLocation));
    }
  }

  /** `ugb--content-width` is present exactly when the content width is restricted. */
  lemma ContentWidthClass(a: Attributes)
    ensures "ugb--content-width" in ConditionalClasses(a) <==> IsTrue(a.contentWidth)
  {
    var c := "ugb--content-width";
    PrefixesDiffer(c, "", "ugb-container--content-", Interpolated(a.contentAlign), 4);
    PrefixesDiffer(c, "", "ugb-container--height-", Interpolated(a.height), 4);
    PrefixesDiffer(c, "", "ugb-container--align-horizontal-", Interpolated(a.contentLocation), 4);
    PrefixesDiffer(c, "", "ugb--shadow-", NumberText(Shadow(a)), 5);
    InConditionalClasses(a, c);
  }

  /**
   * A `ugb--shadow-<n>` class is present exactly when the shadow (3 when
   * undefined) is not 3, and then `n` is that shadow.
   */
  lemma ShadowClass(a: Attributes, s: string)
    ensures "ugb--shadow-" + s in ConditionalClasses(a) <==> Shadow(a) != 3 && s == NumberText(Shadow(a))
  {
    var p := "ugb--shadow-";
    var c := p + s;
    PrefixesDiffer(p, s, "ugb--has-background", "", 5);
    PrefixesDiffer(p, s, "ugb--has-background-image", "", 5);
    PrefixesDiffer(p, s, "ugb-container--content-", Interpolated(a.contentAlign), 4);
    PrefixesDiffer(p, s, "ugb-container--height-", Interpolated(a.height), 4);
    PrefixesDiffer(p, s, "ugb-container--align-horizontal-", Interpolated(a.contentLocation), 4);
    PrefixesDiffer(p, s, "ugb--content-width", "", 5);
    InConditionalClasses(a, c);
    if c == p + NumberText(Shadow(a)) {
      SamePrefix(p, s, NumberText(Shadow(a)));
    }
  }

  /**
   * The `mainClasses` of the main element: the block's own class name
   * when it is set, `ugb-container`, the background-opacity class, then the
   * conditional classes (the class filter hook is taken as the identity).
   */
  function MainClasses(className: Option<string>, a: Attributes): (r: seq<string>)
    ensures "ugb-container" in r && OpacityClass(a.backgroundOpacity) in r
    ensures Truthy(className) ==> className.value in r
    ensures forall c :: c in ConditionalClasses(a) ==> c in r
    ensures forall c :: c in r ==>
              || c in ConditionalClasses(a) || c == "ugb-container" || c == OpacityClass(a.backgroundOpacity)
              || (Truthy(className) && c == className.value)
  {
    (if Truthy(className) then [className.value] else [])
      + ["ugb-container", OpacityClass(a.backgroundOpacity)]
      + ConditionalClasses(a)
  }

  /**
   * The main element's inline style object; `None` is a property whose value
   * is `undefined`, which React leaves out.
   */
  datatype Style = Style(
    ugbTextColor: Option<string>,        // `--ugb-text-color`
    backgroundColor: Option<string>,
    backgroundImage: Option<string>,
    backgroundAttachment: Option<string>,
    ugbBackgroundColor: Option<string>,  // `--ugb-background-color`
    justifyContent: Option<string>,      // `justify-content`
    borderRadius: Option<int>)

  /** A string attribute passed through only when it is truthy. */
  function IfTruthy(v: Option<string>): (r: Option<string>)
    ensures r.Some? <==> Truthy(v)
    ensures r.Some? ==> r == v
  {
    if Truthy(v) then v else None
  }

  /** The `mainStyle` of the main element: its inline style. */
  function MainStyle(a: Attributes): (st: Style)
    ensures st.ugbTextColor.Some? <==> Truthy(a.textColor)
    ensures st.ugbTextColor.Some? ==> st.ugbTextColor == a.textColor
    ensures st.backgroundColor.Some? <==> Truthy(a.backgroundColor)
    ensures st.backgroundColor.Some? ==> st.backgroundColor == a.backgroundColor
    ensures st.backgroundImage.Some? <==> Truthy(a.backgroundImageURL)
    ensures st.backgroundImage.Some? ==> st.backgroundImage == Some("url(" + a.backgroundImageURL.value + ")")
    ensures st.backgroundAttachment.Some? <==> IsTrue(a.fixedBackground)
    ensures st.backgroundAttachment.Some? ==> st.backgroundAttachment == Some("fixed")
    // The colour variable is written only when there is an image, and then as the colour itself.
    ensures st.ugbBackgroundColor.Some? ==> Truthy(a.backgroundImageURL)
    ensures Truthy(a.backgroundImageURL) ==> st.ugbBackgroundColor == a.backgroundColor
    ensures st.justifyContent.Some? <==>
              (a.height == Some("full") || a.height == Some("half")) && Truthy(a.verticalAlign)
    ensures st.justifyContent.Some? ==> st.justifyContent == a.verticalAlign
    ensures st.borderRadius.Some? <==> BorderRadius(a) != 12
    ensures st.borderRadius.Some? ==> st.borderRadius == Some(BorderRadius(a))
  {
    Style(
      ugbTextColor := IfTruthy(a.textColor),
      backgroundColor := IfTruthy(a.backgroundColor),
      backgroundImage := if Truthy(a.backgroundImageURL) then Some("url(" + a.backgroundImageURL.value + ")") else None,
      backgroundAttachment := if IsTrue(a.fixedBackground) then Some("fixed") else None,
      ugbBackgroundColor := if Truthy(a.backgroundImageURL) then a.backgroundColor else None,
      justifyContent := if (a.height == Some("full") || a.height == Some("half")) then IfTruthy(a.verticalAlign) else None,
      borderRadius := if BorderRadius(a) != 12 then Some(BorderRadius(a)) else None)
  }

  /** The attribute updates the toolbar and inspector callbacks make. */
  datatype Change =
    | SetContentAlign(contentAlign: Option<string>)
    | SetContentLocation(contentLocation: Option<string>)
    | SetVerticalAlign(verticalAlign: Option<string>)
    | SetTextColor(textColor: Option<string>)
    | SetHeight(height: Option<string>)
    | SetContentWidth(contentWidth: Option<bool>)
    | SetBorderRadius(borderRadius: Option<int>)
    | SetShadow(shadow: Option<int>)
    | SetBackgroundColor(color: Option<string>)
    | SetBackgroundImage(url: Option<string>, id: Option<int>)
    | RemoveBackgroundImage
    | SetBackgroundOpacity(opacity: Option<int>)
    | SetFixedBackground(fixed: Option<bool>)

  /**
   * The attributes after `setAttributes` merges in the update a callback
   * builds. Every change touches only the attributes it names; three of them
   * normalise what they store.
   */
  function OnChange(a: Attributes, c: Change): (r: Attributes)
    ensures c.SetContentAlign? ==> r == a.(contentAlign := c.contentAlign)
    ensures c.SetContentLocation? ==> r == a.(contentLocation := c.contentLocation)
    ensures c.SetVerticalAlign? ==> r == a.(verticalAlign := c.verticalAlign)
    ensures c.SetTextColor? ==> r == a.(textColor := c.textColor)
    ensures c.SetHeight? ==> r == a.(height := c.height)
    ensures c.SetContentWidth? ==> r == a.(contentWidth := c.contentWidth)
    ensures c.SetBorderRadius? ==> r == a.(borderRadius := c.borderRadius)
    ensures c.SetShadow? ==> r == a.(shadow := c.shadow)
    ensures c.SetBackgroundOpacity? ==> r == a.(backgroundOpacity := c.opacity)
    ensures c.SetBackgroundImage? ==> r == a.(backgroundImageURL := c.url, backgroundImageID := c.id)
    // An undefined colour is stored as `transparent`; a defined one as given.
    ensures c.SetBackgroundColor? ==>
              && r.(backgroundColor := a.backgroundColor) == a
              && r.backgroundColor.Some?
              && (c.color.Some? ==> r.backgroundColor == c.color)
              && (c.color.None? ==> r.backgroundColor == Some("transparent"))
    // Removing the image clears its URL to the empty string and its ID to 0.
    ensures c.RemoveBackgroundImage? ==>
              && r.(backgroundImageURL := a.backgroundImageURL, backgroundImageID := a.backgroundImageID) == a
              && r.backgroundImageURL == Some("") && r.backgroundImageID == Some(0)
    // The fixed-background flag is always stored as a boolean.
    ensures c.SetFixedBackground? ==>
              && r.(fixedBackground := a.fixedBackground) == a
              && r.fixedBackground.Some?
              && (r.fixedBackground.value <==> c.fixed == Some(true))
  {
    match c
    case SetContentAlign(v) => a.(contentAlign := v)
    case SetContentLocation(v) => a.(contentLocation := v)
    case SetVerticalAlign(v) => a.(verticalAlign := v)
    case SetTextColor(v) => a.(textColor := v)
    case SetHeight(v) => a.(height := v)
    case SetContentWidth(v) => a.(contentWidth := v)
    case SetBorderRadius(v) => a.(borderRadius := v)
    case SetShadow(v) => a.(shadow := v)
    case SetBackgroundColor(v) => a.(backgroundColor := Some(if v.None? then "transparent" else v.value))
    case SetBackgroundImage(url, id) => a.(backgroundImageURL := url, backgroundImageID := id)
    case RemoveBackgroundImage => a.(backgroundImageURL := Some(""), backgroundImageID := Some(0))
    case SetBackgroundOpacity(v) => a.(backgroundOpacity := v)
    case SetFixedBackground(v) => a.(fixedBackground := Some(v == Some(true)))
  }

  /**
   * After the background image is removed, neither the image classes nor
   * the image styles remain, and the block counts as having a background
   * only through a colour other than `transparent`.
   */
  lemma RemovedImageLeavesNoImage(a: Attributes)
    ensures var r := OnChange(a, RemoveBackgroundImage);
            && "ugb--has-background-image" !in ConditionalClasses(r)
            && MainStyle(r).backgroundImage.None?
            && MainStyle(r).ugbBackgroundColor.None?
            && ("ugb--has-background" in ConditionalClasses(r) <==>
                  Truthy(a.backgroundColor) && a.backgroundColor.value != "transparent")
  {
    var r := OnChange(a, RemoveBackgroundImage);
    HasBackgroundImageClass(r);
    HasBackgroundClass(r);
  }

  /**
   * Clearing the background colour stores `transparent`, which is written to
   * the style but does not by itself count as a background.
   */
  lemma ClearedColourIsTransparent(a: Attributes)
    ensures var r := OnChange(a, SetBackgroundColor(None));
            && MainStyle(r).backgroundColor == Some("transparent")
            && ("ugb--has-background" in ConditionalClasses(r) <==> Truthy(a.backgroundImageURL))
  {
    HasBackgroundClass(OnChange(a, SetBackgroundColor(None)));
  }

  /** The background is fixed in the style exactly when the toggle was switched on. */
  lemma FixedBackgroundFollowsToggle(a: Attributes, v: Option<bool>)
    ensures MainStyle(OnChange(a, SetFixedBackground(v))).backgroundAttachment.Some? <==> v == Some(true)
  {
  }

  /** Setting the shadow back to the default 3 removes every shadow class. */
  lemma DefaultShadowHasNoClass(a: Attributes, s: string)
    ensures "ugb--shadow-" + s !in ConditionalClasses(OnChange(a, SetShadow(Some(3))))
  {
    ShadowClass(OnChange(a, SetShadow(Some(3))), s);
  }
}
