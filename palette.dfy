/**
 * The colours the animated background paints with (src/components/Home.jsx):
 * glyphs, links, pulses and the trail-forming background wash, each chosen by
 * the document's `data-theme` attribute.
 */
module Palette {
  import opened Maybe
  import Theme

  /** A CSS `rgba(r, g, b, a)` colour. */
  datatype Rgba = Rgba(r: int, g: int, b: int, a: real)

  /** `theme === 'dark'`; the attribute may also be absent (`null`) or hold any other string. */
  predicate IsDark(theme: Option<string>) {
    theme == Some(Theme.Dark)
  }

  /** `baseColor` and `activeColor` of `BioEntity.draw`, chosen by `this.active`. */
  function EntityColour(theme: Option<string>, active: bool): (c: Rgba)
    ensures c.a == if active then 0.4 else 0.2
  {
    if IsDark(theme) then
      (if active then Rgba(180, 200, 220, 0.4) else Rgba(140, 160, 180, 0.2))
    else
      (if active then Rgba(60, 80, 100, 0.4) else Rgba(80, 100, 120, 0.2))
  }

  /** `const maxDistance = 220` */
  const MaxDistance: real := 220.0

  /** `Math.max(0, 1 - distance / maxDistance)` */
  function ConnectionOpacity(distance: real): (o: real)
    ensures distance >= 0.0 ==> 0.0 <= o <= 1.0
    ensures distance >= MaxDistance ==> o == 0.0
    ensures distance <= MaxDistance ==> o == 1.0 - distance / MaxDistance
  {
    var o := 1.0 - distance / MaxDistance;
    if o > 0.0 then o else 0.0
  }

  /** Links fade as their ends move apart. */
  lemma OpacityFades(d1: real, d2: real)
    requires d1 <= d2
    ensures ConnectionOpacity(d2) <= ConnectionOpacity(d1)
  {
  }

  /** `connectionColor`: the glyph base colour at a tenth of the opacity. */
  function ConnectionColour(theme: Option<string>, distance: real): (c: Rgba)
    ensures distance >= 0.0 ==> 0.0 <= c.a <= 0.1
    ensures distance >= MaxDistance ==> c.a == 0.0
  {
    var base := EntityColour(theme, false);
    Rgba(base.r, base.g, base.b, ConnectionOpacity(distance) * 0.1)
  }

  /** `flowColor`: the glyph active colour at 0.3. */
  function FlowColour(theme: Option<string>): (c: Rgba)
    ensures c.a == 0.3
  {
    var active := EntityColour(theme, true);
    Rgba(active.r, active.g, active.b, 0.3)
  }

  /** `bgColor` of `animate()` */
  function Background(theme: Option<string>): (c: Rgba)
    ensures c.a == 0.15
  {
    if IsDark(theme) then Rgba(10, 10, 10, 0.15) else Rgba(255, 255, 255, 0.15)
  }

  /**
   * Every colour follows one switch: two themes give the same colours iff both
   * are dark or both are not, so a missing attribute and any unknown value
   * paint like `light`.
   */
  lemma PaletteIsBinary(t1: Option<string>, t2: Option<string>, active: bool, distance: real)
    ensures IsDark(t1) == IsDark(t2) ==>
      EntityColour(t1, active) == EntityColour(t2, active) &&
      ConnectionColour(t1, distance) == ConnectionColour(t2, distance) &&
      FlowColour(t1) == FlowColour(t2) && Background(t1) == Background(t2)
    ensures IsDark(t1) != IsDark(t2) ==>
      EntityColour(t1, active) != EntityColour(t2, active) && Background(t1) != Background(t2)
  {
  }

  /** The glyph colour is the active one iff the glyph is active. */
  lemma ActiveColourIffActive(theme: Option<string>, active: bool)
    ensures EntityColour(theme, active) == EntityColour(theme, true) <==> active
  {
  }

  /** Once the theme effect has run, the canvas paints dark exactly when the React theme is `dark`. */
  lemma CanvasFollowsThemeProvider(p: Theme.ThemeProvider)
    requires p.Mirrored()
    ensures IsDark(p.dataTheme) <==> p.theme == Theme.Dark
  {
  }
}
