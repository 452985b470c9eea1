/**
 * The validation policy bundle and the one piece of logic configuration loading
 * performs: turning the configured image types into the allowed-extension map.
 */
module Config {
  import opened Text

  /**
   * A regular-expression character class, as the list of ranges it denotes;
   * a single character `c` is the range `(c, c)`.
   */
  datatype CharClass = CharClass(ranges: seq<(char, char)>) {
    predicate Contains(c: char) {
      exists i :: 0 <= i < |ranges| && ranges[i].0 <= c <= ranges[i].1
    }
  }

  datatype UsernamePolicy = UsernamePolicy(
    minLength: int,
    maxLength: int,
    allowedCharacters: CharClass,
    caseSensitive: bool)

  datatype PasswordPolicy = PasswordPolicy(
    minLength: int,
    maxLength: int,
    requireUpper: bool,
    requireLower: bool,
    requireDigit: bool)

  /** `allowedImgTypesMap` is derived from `imgType` at load time (see `LoadImgTypes`). */
  datatype AdPolicy = AdPolicy(
    minLengthTitle: int,
    maxLengthTitle: int,
    minLengthDescription: int,
    maxLengthDescription: int,
    imgType: seq<string>,
    priceMin: real,
    allowedImgTypesMap: map<string, bool>)

  datatype Config = Config(username: UsernamePolicy, password: PasswordPolicy, ad: AdPolicy)

  /** Go's map index: a missing key reads as the zero value, `false`. */
  function Lookup(m: map<string, bool>, key: string): bool {
    key in m && m[key]
  }

  /** One configured image type as a map key: a leading '.' is added when missing, then the text is lowered. */
  function NormalizeImgType(ext: string): (key: string)
    ensures |key| > 0 && key[0] == '.'
    ensures forall i :: 0 <= i < |key| ==> !IsUpperAscii(key[i])
    ensures |key| == |ext| + (if |ext| > 0 && ext[0] == '.' then 0 else 1)
    ensures key[|key| - |ext|..] == ToLower(ext)
  {
    var dotted := if HasPrefix(ext, ".") then ext else "." + ext;
    ToLowerSuffix(dotted, |dotted| - |ext|);
    assert dotted[|dotted| - |ext|..] == ext;
    ToLower(dotted)
  }

  /** `key` is the normalised form of some listed type. */
  predicate Listed(types: seq<string>, key: string) {
    exists i :: 0 <= i < |types| && NormalizeImgType(types[i]) == key
  }

  lemma ListedSnoc(init: seq<string>, t: string, key: string)
    ensures Listed(init + [t], key) <==> Listed(init, key) || NormalizeImgType(t) == key
  {
    var types := init + [t];
    if Listed(init, key) {
      var i :| 0 <= i < |init| && NormalizeImgType(init[i]) == key;
      assert types[i] == init[i];
    }
    if Listed(types, key) {
      var i :| 0 <= i < |types| && NormalizeImgType(types[i]) == key;
      if i < |init| {
        assert types[i] == init[i];
      }
    }
    if NormalizeImgType(t) == key {
      assert types[|init|] == t;
    }
  }

  /** The map built from empty by `LoadConfig`: every normalised listed type maps to true, nothing else is present. */
  function BuildImgTypesMap(types: seq<string>): (m: map<string, bool>)
    ensures forall key :: key in m <==> Listed(types, key)
    ensures forall key :: key in m ==> m[key]
  {
    if |types| == 0 then map[]
    else
      var init, t := types[..|types| - 1], types[|types| - 1];
      assert types == init + [t];
      var m := BuildImgTypesMap(init)[NormalizeImgType(t) := true];
      assert forall key :: key in m <==> Listed(types, key) by {
        forall key ensures key in m <==> Listed(types, key) {
          ListedSnoc(init, t, key);
        }
      }
      m
  }

  /** The load step: the map is replaced by the one built from `imgType`; every other setting is kept. */
  function LoadImgTypes(ad: AdPolicy): (loaded: AdPolicy)
    ensures loaded == ad.(allowedImgTypesMap := loaded.allowedImgTypesMap)
    ensures forall key :: Lookup(loaded.allowedImgTypesMap, key) <==> Listed(ad.imgType, key)
  {
    ad.(allowedImgTypesMap := BuildImgTypesMap(ad.imgType))
  }

  /** Normalising a key again changes nothing: "jpg", ".jpg" and ".JPG" all settle on ".jpg". */
  lemma NormalizeImgTypeIdempotent(ext: string)
    ensures NormalizeImgType(NormalizeImgType(ext)) == NormalizeImgType(ext)
  {
    var key := NormalizeImgType(ext);
    assert |key| > 0 && key[0] == '.';
    assert forall i :: 0 <= i < |key| ==> !IsUpperAscii(key[i]);
    NormalizedIsFixed(key);
  }

  /** A dotted type without upper-case letters is its own normal form. */
  lemma NormalizedIsFixed(key: string)
    requires |key| > 0 && key[0] == '.'
    requires forall i :: 0 <= i < |key| ==> !IsUpperAscii(key[i])
    ensures NormalizeImgType(key) == key
  {
    assert HasPrefix(key, ".") by { assert key[..1] == "."; }
    ToLowerOfLower(key);
  }

  lemma NormalizeImgTypeExamples()
    ensures NormalizeImgType("jpg") == ".jpg"
    ensures NormalizeImgType(".jpg") == ".jpg"
    ensures NormalizeImgType(".JPG") == ".jpg"
  {
    assert !HasPrefix("jpg", ".");
    assert HasPrefix(".jpg", ".");
    assert HasPrefix(".JPG", ".");
  }

  /** Only the set of listed types matters: order and repetition do not change the map. */
  lemma {:induction false} ImgTypesMapIgnoresOrder(a: seq<string>, b: seq<string>)
    requires forall t :: t in a <==> t in b
    ensures BuildImgTypesMap(a) == BuildImgTypesMap(b)
  {
    var ma, mb := BuildImgTypesMap(a), BuildImgTypesMap(b);
    forall key | key in ma
      ensures key in mb
    {
      var i :| 0 <= i < |a| && NormalizeImgType(a[i]) == key;
      assert a[i] in b;
      var j :| 0 <= j < |b| && b[j] == a[i];
    }
    forall key | key in mb
      ensures key in ma
    {
      var j :| 0 <= j < |b| && NormalizeImgType(b[j]) == key;
      assert b[j] in a;
      var i :| 0 <= i < |a| && a[i] == b[j];
    }
    assert ma.Keys == mb.Keys;
  }

  /** A type written without its dot and without upper-case letters only gains the dot. */
  lemma NormalizeUndotted(ext: string)
    requires !HasPrefix(ext, ".")
    requires forall i :: 0 <= i < |ext| ==> !IsUpperAscii(ext[i])
    ensures NormalizeImgType(ext) == "." + ext
  {
    var dotted := "." + ext;
    forall i | 0 <= i < |dotted|
      ensures !IsUpperAscii(dotted[i])
    {
      if i > 0 { assert dotted[i] == ext[i - 1]; }
    }
    ToLowerOfLower(dotted);
  }

  lemma NormalizeJpgPng()
    ensures NormalizeImgType("jpg") == ".jpg" && NormalizeImgType("png") == ".png"
  {
    assert !HasPrefix("jpg", ".") by { assert "jpg"[..1][0] == 'j'; }
    assert !HasPrefix("png", ".") by { assert "png"[..1][0] == 'p'; }
    NormalizeUndotted("jpg");
    NormalizeUndotted("png");
  }

  /** The configuration test: with types "jpg" and "png", ".jpg" and ".png" are allowed, ".gif" is not. */
  lemma ImgTypesMapExample(types: seq<string>)
    requires types == ["jpg", "png"]
    ensures var m := BuildImgTypesMap(types);
      Lookup(m, ".jpg") && Lookup(m, ".png") && !Lookup(m, ".gif")
  {
    NormalizeJpgPng();
    assert NormalizeImgType(types[0]) == ".jpg" && NormalizeImgType(types[1]) == ".png";
    assert Listed(types, ".jpg") && Listed(types, ".png");
    assert ".jpg"[1] != ".gif"[1] && ".png"[1] != ".gif"[1];
    assert !Listed(types, ".gif");
  }
}
