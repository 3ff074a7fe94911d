/**
 * `IconItem` and `IconManager.LoadPresetIcons`: the preset icons offered for a group,
 * each with a display name derived from its file name, and the dispose state of an
 * icon item.
 */
module Icons {
  import opened Wrappers
  import Text
  import Paths
  import Sorting

  /** `fileName.Replace("_", " ").Replace("-", " ")`. */
  function Spaced(fileName: string): (r: string)
    ensures |r| == |fileName|
    ensures '_' !in r && '-' !in r
  {
    seq(|fileName|, k requires 0 <= k < |fileName| => if fileName[k] == '_' || fileName[k] == '-' then ' ' else fileName[k])
  }

  /** Every '_', '-' and ' ' of the file name is a space afterwards, and no other character is. */
  lemma {:induction false} SpacedCount(fileName: string)
    ensures Text.CountChar(Spaced(fileName), ' ')
      == Text.CountChar(fileName, '_') + Text.CountChar(fileName, '-') + Text.CountChar(fileName, ' ')
  {
    if fileName != [] {
      SpacedCount(fileName[1..]);
      assert Spaced(fileName)[1..] == Spaced(fileName[1..]);
    }
  }

  /** `char.ToUpper(word[0]) + word.Substring(1).ToLower()`. */
  function Capitalized(word: string): (r: string)
    requires word != []
    ensures |r| == |word|
    ensures !('a' <= r[0] <= 'z')
    ensures forall k | 1 <= k < |r| :: !('A' <= r[k] <= 'Z')
  {
    [Text.UpperChar(word[0])] + Text.Lower(word[1..])
  }

  /** Each word capitalised. */
  function CapitalizedAll(words: seq<string>): (r: seq<string>)
    requires forall k | 0 <= k < |words| :: words[k] != []
    ensures |r| == |words|
  {
    seq(|words|, k requires 0 <= k < |words| => Capitalized(words[k]))
  }

  /** The words the display name is built from. */
  function Words(fileName: string): (ws: seq<string>)
    ensures |ws| == Text.CountChar(fileName, '_') + Text.CountChar(fileName, '-') + Text.CountChar(fileName, ' ') + 1
    ensures forall k | 0 <= k < |ws| :: ' ' !in ws[k]
  {
    SpacedCount(fileName);
    Text.Split(Spaced(fileName), ' ')
  }

  /**
   * The display name of an icon file whose name without extension is `fileName`: the
   * words capitalised and joined by spaces. `None` when a word is empty, where
   * `word[0]` throws.
   */
  function DisplayName(fileName: string): (r: Option<string>)
    ensures r.None? <==> exists k | 0 <= k < |Words(fileName)| :: Words(fileName)[k] == []
  {
    var words := Words(fileName);
    if exists k | 0 <= k < |words| :: words[k] == [] then None
    else Some(Text.Join(CapitalizedAll(words), ' '))
  }

  /** Capitalising keeps out a character that was not in the word and is not a letter. */
  lemma CapitalizedKeepsAbsent(word: string, c: char)
    requires word != [] && c !in word && !('A' <= c <= 'Z') && !('a' <= c <= 'z')
    ensures c !in Capitalized(word)
  {
    Text.CaseMappingKeeps(word[0], c);
    forall k | 1 <= k < |word| ensures Text.LowerChar(word[k]) != c {
      Text.CaseMappingKeeps(word[k], c);
    }
  }

  /**
   * The display name holds no '_' or '-', and splitting it at spaces gives one word per
   * separator ('_', '-' or ' ') of the file name plus one: each word capitalised.
   */
  lemma DisplayNameWords(fileName: string)
    requires DisplayName(fileName).Some?
    ensures var name := DisplayName(fileName).value;
      '_' !in name && '-' !in name
      && Text.Split(name, ' ') == CapitalizedAll(Words(fileName))
      && |Text.Split(name, ' ')|
        == Text.CountChar(fileName, '_') + Text.CountChar(fileName, '-') + Text.CountChar(fileName, ' ') + 1
  {
    var words := Words(fileName);
    var caps := CapitalizedAll(words);
    Text.SplitKeepsAbsent(Spaced(fileName), ' ', '_');
    Text.SplitKeepsAbsent(Spaced(fileName), ' ', '-');
    forall k | 0 <= k < |caps| ensures '_' !in caps[k] && '-' !in caps[k] && ' ' !in caps[k] {
      CapitalizedKeepsAbsent(words[k], '_');
      CapitalizedKeepsAbsent(words[k], '-');
      CapitalizedKeepsAbsent(words[k], ' ');
    }
    Text.JoinExcludes(caps, ' ', '_');
    Text.JoinExcludes(caps, ' ', '-');
    Text.SplitJoin(caps, ' ');
    SpacedCount(fileName);
  }

  /** An empty name, or one that starts or ends with a separator, has no display name. */
  lemma DisplayNameFailsAtEdges(fileName: string)
    requires fileName == [] || fileName[0] in "_- " || fileName[|fileName| - 1] in "_- "
    ensures DisplayName(fileName).None?
  {
    var spaced := Spaced(fileName);
    var words := Words(fileName);
    if fileName == [] {
      assert ' ' !in spaced;
      assert words[0] == [];
    } else if fileName[0] in "_- " {
      Text.SplitLeadingSeparator(spaced, ' ');
      assert words[0] == [];
    } else {
      Text.SplitTrailingSeparator(spaced, ' ');
      assert words[|words| - 1] == [];
    }
  }

  /** An icon image, known by the file it was loaded from. */
  datatype Bitmap = Bitmap(source: string)

  /** One preset icon: its display name, its file and the image loaded for it. */
  class IconItem {
    var name: string
    var path: string
    var icon: Option<Bitmap>
    var disposed: bool

    constructor (itemName: string, itemPath: string)
      ensures name == itemName && path == itemPath && icon == None && !disposed
    {
      name, path := itemName, itemPath;
      icon, disposed := None, false;
    }

    /** The `Icon` getter: nothing once disposed. */
    function Icon(): (r: Option<Bitmap>)
      reads this
      ensures disposed ==> r == None
      ensures !disposed ==> r == icon
    {
      if disposed then None else icon
    }

    /**
     * The end of `LoadIconAsync`: a non-null image from the cache goes to the private
     * `Icon` setter; a null image or a failure leaves the item as it was.
     */
    method IconLoaded(loaded: Option<Bitmap>)
      modifies this
      ensures loaded.Some? ==> icon == loaded
      ensures loaded.None? ==> icon == old(icon)
      ensures name == old(name) && path == old(path) && disposed == old(disposed)
      ensures old(disposed) ==> Icon() == None
    {
      if loaded.Some? {
        icon := loaded;
      }
    }

    /** `Dispose`: drops the image once; a second call does nothing. */
    method Dispose()
      modifies this
      ensures disposed && Icon() == None
      ensures old(disposed) ==> icon == old(icon)
      ensures !old(disposed) ==> icon == None
      ensures name == old(name) && path == old(path)
    {
      if !disposed {
        icon := None;
        disposed := true;
      }
    }
  }

  /** The display name of an icon file, from its name without extension. */
  function ShownName(file: string): (r: Option<string>)
    ensures r.None? <==> [] in Words(Paths.NameWithoutExtension(file))
    ensures r.Some? ==> '_' !in r.value && '-' !in r.value
  {
    var stem := Paths.NameWithoutExtension(file);
    if DisplayName(stem).Some? then DisplayNameWords(stem); DisplayName(stem) else DisplayName(stem)
  }

  /**
   * The icons added from `files`, taken in order, where `shown` gives a file's display
   * name: (display name, file) for each file up to the first that has none, where
   * loading stops.
   */
  function Presets(files: seq<string>, shown: string -> Option<string>): (r: seq<(string, string)>)
    ensures |r| <= |files|
    ensures forall k | 0 <= k < |r| :: r[k].1 == files[k] && shown(files[k]) == Some(r[k].0)
    ensures |r| < |files| ==> shown(files[|r|]).None?
  {
    if files == [] then []
    else
      match shown(files[0])
      case None => []
      case Some(name) => [(name, files[0])] + Presets(files[1..], shown)
  }

  /** The key the icon files are ordered by. */
  function Stem(file: string): (r: string)
    ensures |r| <= |file|
    ensures forall i | 0 <= i < |r| :: !Paths.IsSeparator(r[i])
  {
    var name := Paths.FileName(file);
    var stem := Paths.NameWithoutExtension(file);
    assert forall i | 0 <= i < |stem| :: stem[i] == name[i];
    stem
  }

  /**
   * `LoadPresetIcons` as values: `directory` lists the `*.ico` files of the icons
   * directory, `None` when it does not exist.
   */
  function PresetIcons(directory: Option<seq<string>>): (r: seq<(string, string)>)
    ensures directory.None? ==> r == []
    ensures directory.Some? ==> |r| <= |directory.value|
  {
    match directory
    case None => []
    case Some(files) =>
      var ordered := Sorting.SortByName(files, Stem);
      assert |ordered| == |multiset(ordered)| == |multiset(files)| == |files|;
      Presets(ordered, ShownName)
  }

  /**
   * The icons come in ascending order of file name without extension, each from a file
   * of the directory and named by its display name; the first file left out has none.
   */
  lemma PresetIconsOrdered(files: seq<string>)
    ensures var r := PresetIcons(Some(files));
      (forall i, j | 0 <= i < j < |r| :: Sorting.AtLeast(Stem(r[j].1), Stem(r[i].1)))
      && (forall k | 0 <= k < |r| :: r[k].1 in files && ShownName(r[k].1) == Some(r[k].0))
  {
    var ordered := Sorting.SortByName(files, Stem);
    var r := PresetIcons(Some(files));
    forall k | 0 <= k < |r| ensures r[k].1 in files {
      assert ordered[k] in multiset(ordered);
    }
  }

  /** Whether the `i`-th file is added is decided by its display name alone. */
  lemma {:induction false} PresetsStep(files: seq<string>, shown: string -> Option<string>, i: nat)
    requires i <= |Presets(files, shown)| && i < |files|
    ensures shown(files[i]).None? ==> i == |Presets(files, shown)|
    ensures shown(files[i]).Some? ==>
      i < |Presets(files, shown)| && Presets(files, shown)[i] == (shown(files[i]).value, files[i])
  {
    if i > 0 {
      PresetsStep(files[1..], shown, i - 1);
      assert files[1..][i - 1] == files[i];
    }
  }

  /** `LoadPresetIcons`: one new icon item per file in order, stopping at the first file without a display name. */
  method LoadPresetIcons(directory: Option<seq<string>>) returns (icons: seq<IconItem>)
    ensures |icons| == |PresetIcons(directory)|
    ensures forall k | 0 <= k < |icons| ::
      fresh(icons[k]) && icons[k].name == PresetIcons(directory)[k].0 && icons[k].path == PresetIcons(directory)[k].1
      && icons[k].icon == None && !icons[k].disposed
  {
    if directory.None? {
      return [];
    }
    icons := AddIcons(Sorting.SortByName(directory.value, Stem), ShownName);
  }

  /** The `foreach` of `LoadPresetIcons` over the ordered files. */
  method AddIcons(files: seq<string>, shown: string -> Option<string>) returns (icons: seq<IconItem>)
    ensures |icons| == |Presets(files, shown)|
    ensures forall k | 0 <= k < |icons| ::
      fresh(icons[k]) && icons[k].name == Presets(files, shown)[k].0 && icons[k].path == Presets(files, shown)[k].1
      && icons[k].icon == None && !icons[k].disposed
  {
    icons := [];
    ghost var expected := Presets(files, shown);
    var i := 0;
    while i < |files|
      invariant 0 <= i <= |files|
      invariant |icons| == i && i <= |expected|
      invariant forall k | 0 <= k < i ::
        fresh(icons[k]) && icons[k].name == expected[k].0 && icons[k].path == expected[k].1
        && icons[k].icon == None && !icons[k].disposed
      decreases |files| - i
    {
      var name := shown(files[i]);
      PresetsStep(files, shown, i);
      if name.None? {
        break;
      }
      var item := new IconItem(name.value, files[i]);
      icons := icons + [item];
      i := i + 1;
    }
  }
}
