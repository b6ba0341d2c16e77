/** The choice of planet design: the colour code is looked up in a table
    of five named colours (falling back to Peach), the surface type is
    capitalised, the two are joined into a design key, and the key selects
    one of twenty hand-made designs or the plain fallback sphere. */
module DesignRegistry {
  import opened JsString
  import Store

  /** `COLOR_MAP`: hex colour code to colour name. */
  const ColorMap: map<string, string> := map[
    "#FFB7B2" := "Peach",
    "#B28DFF" := "Lavender",
    "#B2F2BB" := "Mint",
    "#FFEEAD" := "Sunny",
    "#AEC6CF" := "Sky"]

  const ColorNames: set<string> := {"Peach", "Lavender", "Mint", "Sunny", "Sky"}

  const DefaultColorName: string := "Peach"

  /** The capitalised texture names the registry has designs for. */
  const TextureNames: set<string> := {"Clay", "Moss", "Sand", "Lavender"}

  /** `COLOR_MAP[color] || 'Peach'`: no value of the table is empty, so the
      fallback applies exactly to codes missing from it. */
  function ColorName(color: string): (name: string)
    ensures name in ColorNames
  {
    if color in ColorMap then ColorMap[color] else DefaultColorName
  }

  /** `s.charAt(0).toUpperCase() + s.slice(1)`. */
  function Capitalize(s: string): (r: string)
    ensures |r| == |s|
    ensures s != [] ==> r[0] == UpperChar(s[0])
    ensures forall i :: 1 <= i < |s| ==> r[i] == s[i]
  {
    if s == [] then [] else [UpperChar(s[0])] + s[1..]
  }

  /** The template literal joining colour name and capitalised surface. */
  function DesignKey(color: string, surfaceType: string): string
  {
    ColorName(color) + Capitalize(surfaceType)
  }

  /** Which branch of the switch renders the planet. */
  datatype Design = Known(key: string) | Fallback

  /** The `switch` on the design key: each known design is the one named
      by the key. */
  function Dispatch(key: string): (d: Design)
    ensures d.Known? ==> d.key == key
  {
    match key
    case "PeachClay" => Known("PeachClay")
    case "PeachMoss" => Known("PeachMoss")
    case "PeachSand" => Known("PeachSand")
    case "PeachLavender" => Known("PeachLavender")
    case "LavenderClay" => Known("LavenderClay")
    case "LavenderMoss" => Known("LavenderMoss")
    case "LavenderSand" => Known("LavenderSand")
    case "LavenderLavender" => Known("LavenderLavender")
    case "MintClay" => Known("MintClay")
    case "MintMoss" => Known("MintMoss")
    case "MintSand" => Known("MintSand")
    case "MintLavender" => Known("MintLavender")
    case "SunnyClay" => Known("SunnyClay")
    case "SunnyMoss" => Known("SunnyMoss")
    case "SunnySand" => Known("SunnySand")
    case "SunnyLavender" => Known("SunnyLavender")
    case "SkyClay" => Known("SkyClay")
    case "SkyMoss" => Known("SkyMoss")
    case "SkySand" => Known("SkySand")
    case "SkyLavender" => Known("SkyLavender")
    case _ => Fallback
  }

  /** The registry component, seen as the choice of design it makes. A
      known design is chosen exactly when the capitalised surface type is
      one of the four texture names, and then it is the design named by the
      colour name and that texture name. */
  function Registry(color: string, surfaceType: string): (d: Design)
    ensures d.Known? <==> Capitalize(surfaceType) in TextureNames
    ensures d.Known? ==> d.key == ColorName(color) + Capitalize(surfaceType)
  {
    var name, rest := ColorName(color), Capitalize(surfaceType);
    if rest in TextureNames then
      DispatchKnowsNamedPairs(name, rest);
      Dispatch(DesignKey(color, surfaceType))
    else
      DispatchRejectsOtherSuffixes(name, rest);
      Dispatch(DesignKey(color, surfaceType))
  }

  /** The twenty cases are exactly the colour names followed by the
      texture names. */
  lemma DispatchKnowsNamedPairs(name: string, texture: string)
    requires name in ColorNames && texture in TextureNames
    ensures Dispatch(name + texture) == Known(name + texture)
  {
    assert "Peach" + "Clay" == "PeachClay";
    assert "Peach" + "Moss" == "PeachMoss";
    assert "Peach" + "Sand" == "PeachSand";
    assert "Peach" + "Lavender" == "PeachLavender";
    assert "Lavender" + "Clay" == "LavenderClay";
    assert "Lavender" + "Moss" == "LavenderMoss";
    assert "Lavender" + "Sand" == "LavenderSand";
    assert "Lavender" + "Lavender" == "LavenderLavender";
    assert "Mint" + "Clay" == "MintClay";
    assert "Mint" + "Moss" == "MintMoss";
    assert "Mint" + "Sand" == "MintSand";
    assert "Mint" + "Lavender" == "MintLavender";
    assert "Sunny" + "Clay" == "SunnyClay";
    assert "Sunny" + "Moss" == "SunnyMoss";
    assert "Sunny" + "Sand" == "SunnySand";
    assert "Sunny" + "Lavender" == "SunnyLavender";
    assert "Sky" + "Clay" == "SkyClay";
    assert "Sky" + "Moss" == "SkyMoss";
    assert "Sky" + "Sand" == "SkySand";
    assert "Sky" + "Lavender" == "SkyLavender";
  }

  /** No colour name is a prefix of another, so a key splits into colour
      name and the rest in one way only. */
  lemma KeySplitsUniquely(name: string, rest: string, name2: string, rest2: string)
    requires name in ColorNames && name2 in ColorNames
    requires name + rest == name2 + rest2
    ensures name == name2 && rest == rest2
  {
    assert (name + rest)[0] == name[0] && (name2 + rest2)[0] == name2[0];
    assert (name + rest)[1] == name[1] && (name2 + rest2)[1] == name2[1];
    assert name == name2;
    assert rest == (name + rest)[|name|..];
    assert rest2 == (name2 + rest2)[|name2|..];
  }

  /** A key made of a colour name and anything but a texture name reaches
      the fallback. */
  lemma DispatchRejectsOtherSuffixes(name: string, rest: string)
    requires name in ColorNames && rest !in TextureNames
    ensures Dispatch(name + rest) == Fallback
  {
    NotNamedKey(name, rest, "PeachClay", "Peach", "Clay");
    NotNamedKey(name, rest, "PeachMoss", "Peach", "Moss");
    NotNamedKey(name, rest, "PeachSand", "Peach", "Sand");
    NotNamedKey(name, rest, "PeachLavender", "Peach", "Lavender");
    NotNamedKey(name, rest, "LavenderClay", "Lavender", "Clay");
    NotNamedKey(name, rest, "LavenderMoss", "Lavender", "Moss");
    NotNamedKey(name, rest, "LavenderSand", "Lavender", "Sand");
    NotNamedKey(name, rest, "LavenderLavender", "Lavender", "Lavender");
    NotNamedKey(name, rest, "MintClay", "Mint", "Clay");
    NotNamedKey(name, rest, "MintMoss", "Mint", "Moss");
    NotNamedKey(name, rest, "MintSand", "Mint", "Sand");
    NotNamedKey(name, rest, "MintLavender", "Mint", "Lavender");
    NotNamedKey(name, rest, "SunnyClay", "Sunny", "Clay");
    NotNamedKey(name, rest, "SunnyMoss", "Sunny", "Moss");
    NotNamedKey(name, rest, "SunnySand", "Sunny", "Sand");
    NotNamedKey(name, rest, "SunnyLavender", "Sunny", "Lavender");
    NotNamedKey(name, rest, "SkyClay", "Sky", "Clay");
    NotNamedKey(name, rest, "SkyMoss", "Sky", "Moss");
    NotNamedKey(name, rest, "SkySand", "Sky", "Sand");
    NotNamedKey(name, rest, "SkyLavender", "Sky", "Lavender");
  }

  /** `key`, one of the twenty, is not `name` followed by a non-texture. */
  lemma NotNamedKey(name: string, rest: string, key: string, name2: string, texture: string)
    requires name in ColorNames && rest !in TextureNames
    requires name2 in ColorNames && texture in TextureNames && key == name2 + texture
    ensures name + rest != key
  {
    if name + rest == key {
      KeySplitsUniquely(name, rest, name2, texture);
    }
  }

  /** The table gives each of the five codes its own name, and the names it
      gives are exactly the five colour names. */
  lemma ColorMapIsOneToOne()
    ensures forall a, b :: a in ColorMap && b in ColorMap && ColorMap[a] == ColorMap[b] ==> a == b
    ensures ColorMap.Values == ColorNames
  {
    assert ColorMap["#FFB7B2"] in ColorMap.Values;
    assert ColorMap["#B28DFF"] in ColorMap.Values;
    assert ColorMap["#B2F2BB"] in ColorMap.Values;
    assert ColorMap["#FFEEAD"] in ColorMap.Values;
    assert ColorMap["#AEC6CF"] in ColorMap.Values;
  }

  /** Any code missing from the table, including a differently-cased spelling
      of one that is present, is named Peach. */
  lemma UnknownCodeIsPeach(color: string)
    requires color !in ColorMap
    ensures ColorName(color) == DefaultColorName
  {
  }

  /** The lookup is case-sensitive: the lower-case spelling of Lavender's
      code is not in the table. */
  lemma LookupIsCaseSensitive(color: string)
    requires color == "#b28dff"
    ensures ColorName(color) == "Peach"
  {
    assert color[1] == 'b';
  }

  /** Capitalising the four store textures gives the four texture names. */
  lemma CapitalizedTextures(t: string)
    requires t in Store.SurfaceTypes
    ensures Capitalize(t) in TextureNames
  {
    var r := Capitalize(t);
    assert r == [r[0]] + t[1..];
    if t == "clay" {
      assert r == "Clay";
    } else if t == "moss" {
      assert r == "Moss";
    } else if t == "sand" {
      assert r == "Sand";
    } else {
      assert r == "Lavender";
    }
  }

  /** A design is found for any colour code and any of the four textures;
      for a code in the table it is the design of that colour. */
  lemma TexturedSurfaceIsKnown(color: string, t: string)
    requires t in Store.SurfaceTypes
    ensures Registry(color, t) == Known(ColorName(color) + Capitalize(t))
    ensures color in ColorMap ==> Registry(color, t).key == ColorMap[color] + Capitalize(t)
  {
    CapitalizedTextures(t);
  }

  /** An unknown colour on its own does not reach the fallback: with one of
      the four textures it selects the matching Peach design. */
  lemma UnknownColourUsesPeach(color: string, t: string)
    requires color !in ColorMap && t in Store.SurfaceTypes
    ensures Registry(color, t) == Known("Peach" + Capitalize(t))
  {
    TexturedSurfaceIsKnown(color, t);
  }

  /** An empty surface type reaches the fallback whatever the colour. */
  lemma EmptySurfaceFallsBack(color: string)
    ensures Registry(color, "") == Fallback
  {
    assert Capitalize("") !in TextureNames;
  }

  /** The preview passes the store's colour and surface to the registry; in
      every state the store can reach, that choice is a known design. */
  lemma StoreStateHasDesign(store: Store.PlanetStore)
    requires store.Valid()
    ensures Registry(store.color, store.surfaceType).Known?
  {
    TexturedSurfaceIsKnown(store.color, store.surfaceType);
  }
}
