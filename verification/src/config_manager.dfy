/** `config/config_manager.py`: which loader reads which configuration
    file, the `.env` line format, and the manager's cache of loaded
    configurations.

    Files, YAML and JSON parsing and the process environment are outside
    this module.  Which files exist, what the YAML and JSON loaders return
    for a file, the lines of a `.env` file and the environment are
    parameters, and so is whether a schema accepts the data. */
module ConfigManager {
  import opened Wrappers
  import Dicts
  import Text
  import Json

  // ------------------------------------------------------------ file names

  /** `s.rfind(c)`: the position of the last `c`, or -1. */
  function LastIndex(s: string, c: char): (i: int)
    ensures -1 <= i < |s|
    ensures i >= 0 ==> s[i] == c
    ensures forall j :: i < j < |s| ==> s[j] != c
  {
    if |s| == 0 then -1
    else if s[|s| - 1] == c then |s| - 1
    else LastIndex(s[..|s| - 1], c)
  }

  /** `Path(path).name` for a path that does not end in `/`: everything
      after the last `/`. */
  function FileName(path: string): (r: string)
    ensures '/' !in r
    ensures Text.IsSuffix(r, path)
    ensures |r| < |path| ==> path[|path| - |r| - 1] == '/'
  {
    path[LastIndex(path, '/') + 1..]
  }

  /** `Path.suffix` as Python 3.12 computes it: the name from its last dot
      on, unless that dot opens the name or closes it. */
  function Suffix(name: string): (r: string)
    ensures r == "" || (2 <= |r| < |name| && r[0] == '.' && Text.IsSuffix(r, name))
  {
    var i := LastIndex(name, '.');
    if 0 < i < |name| - 1 then name[i..] else ""
  }

  /** The suffix is present exactly when the name's last dot is neither its
      first nor its last character, and it then holds no other dot. */
  lemma SuffixLastDot(name: string)
    ensures Suffix(name) != "" <==> exists i :: 0 < i < |name| - 1 && name[i] == '.'
                                             && forall j :: i < j < |name| ==> name[j] != '.'
    ensures forall j :: 0 < j < |Suffix(name)| ==> Suffix(name)[j] != '.'
  {
    var i := LastIndex(name, '.');
    if exists k :: 0 < k < |name| - 1 && name[k] == '.' && forall j :: k < j < |name| ==> name[j] != '.' {
      var k :| 0 < k < |name| - 1 && name[k] == '.' && forall j :: k < j < |name| ==> name[j] != '.';
      assert i == k;
    }
    if 0 < i < |name| - 1 {
      assert forall j :: 0 < j < |name| - i ==> name[i..][j] == name[i + j];
    }
  }

  // --------------------------------------------------------------- loaders

  datatype Loader = YamlLoader | JsonLoader | EnvLoader

  /** The loaders in the order the manager tries them, and the extensions
      it tries for each loader. */
  const Loaders: seq<Loader> := [YamlLoader, JsonLoader, EnvLoader]
  const Extensions: seq<string> := [".yaml", ".yml", ".json", ".env"]

  /** The lower-case suffixes a loader reads. */
  function Reads(l: Loader): set<string> {
    match l
    case YamlLoader => {".yaml", ".yml"}
    case JsonLoader => {".json"}
    case EnvLoader => {".env"}
  }

  /** `can_handle`: the file's suffix, lower-cased, is one the loader reads.
      Case folding is ASCII here; no other character lower-cases into the
      letters of these suffixes, so the test is the same. */
  predicate CanHandle(l: Loader, path: string) {
    Text.Lower(Suffix(FileName(path))) in Reads(l)
  }

  /** A file some loader handles has a suffix. */
  lemma CanHandleSuffix(l: Loader, path: string)
    requires CanHandle(l, path)
    ensures Suffix(FileName(path)) != ""
  {
    ReadsLong(l, Suffix(FileName(path)));
  }

  lemma ReadsLong(l: Loader, s: string)
    requires Text.Lower(s) in Reads(l)
    ensures |s| >= 4
  {
    assert |Text.Lower(s)| == |s|;
  }

  /** No two loaders read the same file. */
  lemma OneLoader(l: Loader, l': Loader, path: string)
    requires CanHandle(l, path) && CanHandle(l', path)
    ensures l == l'
  {
  }

  lemma LowerFront(s: string)
    requires |s| > 0
    ensures Text.Lower(s)[..|s| - 1] == Text.Lower(s[..|s| - 1])
    ensures Text.Lower(s)[|s| - 1] == Text.LowerChar(s[|s| - 1])
  {
  }

  lemma LowerFrom(s: string, i: nat)
    requires i <= |s|
    ensures Text.Lower(s)[i..] == Text.Lower(s[i..])
  {
  }

  /** Lower-casing leaves the last position of a character that is not a
      letter where it was. */
  lemma {:induction false} LastIndexLower(s: string, c: char)
    requires !('a' <= c <= 'z') && !('A' <= c <= 'Z')
    ensures LastIndex(Text.Lower(s), c) == LastIndex(s, c)
  {
    if |s| > 0 {
      LowerFront(s);
      LastIndexLower(s[..|s| - 1], c);
    }
  }

  lemma FileNameLower(path: string)
    ensures FileName(Text.Lower(path)) == Text.Lower(FileName(path))
  {
    LastIndexLower(path, '/');
    LowerFrom(path, LastIndex(path, '/') + 1);
  }

  lemma LowerTwice(s: string)
    ensures Text.Lower(Text.Lower(s)) == Text.Lower(s)
  {
  }

  lemma SuffixLowerName(n: string)
    ensures Suffix(Text.Lower(n)) == Text.Lower(Suffix(n))
  {
    LastIndexLower(n, '.');
    var i := LastIndex(n, '.');
    if 0 < i < |n| - 1 {
      LowerFrom(n, i);
    } else {
      assert Text.Lower("") == "";
    }
  }

  /** Lower-casing commutes with taking the file name's suffix. */
  lemma SuffixLower(path: string)
    ensures Suffix(FileName(Text.Lower(path))) == Text.Lower(Suffix(FileName(path)))
  {
    FileNameLower(path);
    SuffixLowerName(FileName(path));
  }

  /** `can_handle` ignores the case of the path. */
  lemma CanHandleIgnoresCase(l: Loader, path: string)
    ensures CanHandle(l, Text.Lower(path)) == CanHandle(l, path)
  {
    SuffixLower(path);
    LowerTwice(Suffix(FileName(path)));
  }

  /** Appending text without `c` leaves the last `c` where it was. */
  lemma {:induction false} LastIndexAppend(s: string, t: string, c: char)
    requires c !in t
    ensures LastIndex(s + t, c) == LastIndex(s, c)
  {
    if |t| > 0 {
      var front := t[..|t| - 1];
      assert (s + t)[..|s + t| - 1] == s + front;
      LastIndexAppend(s, front, c);
    } else {
      assert s + t == s;
    }
  }

  lemma FileNameAppend(path: string, ext: string)
    requires '/' !in ext
    ensures FileName(path + ext) == FileName(path) + ext
  {
    LastIndexAppend(path, ext, '/');
    var i := LastIndex(path, '/');
    assert (path + ext)[i + 1..] == path[i + 1..] + ext;
  }

  /** A name followed by a dot and letters without a dot has those as its
      suffix, unless the name is empty: then the dot opens the name. */
  lemma SuffixAppend(name: string, ext: string)
    requires |ext| >= 2 && ext[0] == '.' && forall j :: 0 < j < |ext| ==> ext[j] != '.'
    ensures Suffix(name + ext) == if name == "" then "" else ext
  {
    var s := name + ext;
    var i := LastIndex(s, '.');
    assert s[|name|] == '.';
    assert i == |name|;
    if name != "" {
      assert s[i..] == ext;
    }
  }

  /** Which loader a tried extension belongs to. */
  function LoaderOf(ext: string): Loader {
    if ext == ".json" then JsonLoader else if ext == ".env" then EnvLoader else YamlLoader
  }

  /** A configuration file `name + ext` is read by the loader of its
      extension and by no other, provided the final path component of
      `name` is not empty; otherwise no loader reads it. */
  lemma CanHandleExtension(l: Loader, name: string, ext: string)
    requires ext in Extensions
    ensures CanHandle(l, name + ext) <==> FileName(name) != "" && l == LoaderOf(ext)
  {
    FileNameAppend(name, ext);
    ExtensionShape(ext);
    SuffixAppend(FileName(name), ext);
    var s := Suffix(FileName(name + ext));
    assert s == if FileName(name) == "" then "" else ext;
    assert Text.Lower("") == "";
    ReadsExtension(l, ext);
  }

  /** Each tried extension is a dot followed by lower-case letters. */
  lemma ExtensionShape(ext: string)
    requires ext in Extensions
    ensures |ext| >= 2 && ext[0] == '.' && '/' !in ext
    ensures forall j :: 0 < j < |ext| ==> ext[j] != '.'
    ensures Text.Lower(ext) == ext
  {
    Text.LowerNoUpper(ext);
  }

  lemma ReadsExtension(l: Loader, ext: string)
    requires ext in Extensions
    ensures ext in Reads(l) <==> l == LoaderOf(ext)
    ensures "" !in Reads(l)
  {
  }

  /** A `.env` file whose whole name is `.env` is read by no loader: its
      suffix is empty, as the leading dot opens the name. */
  lemma DotEnvUnread(l: Loader)
    ensures !CanHandle(l, ".env")
  {
    SuffixAppend("", ".env");
    assert FileName(".env") == ".env";
  }

  // --------------------------------------------------------- the .env file

  /** `EnvConfigLoader`'s test and split of one line: a stripped line that
      is not empty, does not start with `#` and holds `=` gives the stripped
      text before its first `=` and the stripped text after it. */
  function ParseEnvLine(line: string): (r: Option<(string, string)>)
    ensures var t := Text.Strip(line);
            r.Some? <==> t != "" && t[0] != '#' && '=' in t
  {
    var t := Text.Strip(line);
    if t != "" && t[0] != '#' && '=' in t then
      var i := Text.IndexOf(t, '=');
      Some((Text.Strip(t[..i]), Text.Strip(t[i + 1..])))
    else None
  }

  /** A line that parses splits at the first `=` of its stripped text. */
  lemma ParseEnvLineSplit(line: string, i: nat)
    requires var t := Text.Strip(line);
             i < |t| && t[0] != '#' && t[i] == '=' && '=' !in t[..i]
    ensures var t := Text.Strip(line);
            ParseEnvLine(line) == Some((Text.Strip(t[..i]), Text.Strip(t[i + 1..])))
  {
    Text.IndexOfUnique(Text.Strip(line), '=', i);
  }

  /** A key without `=` that does not start with `#`, and a value, both
      already stripped, read back from the line `key=value`. */
  lemma EnvLineRoundTrip(key: string, value: string)
    requires '=' !in key && (key == "" || key[0] != '#')
    requires Text.Strip(key) == key && Text.Strip(value) == value
    ensures ParseEnvLine(key + "=" + value) == Some((key, value))
  {
    var t := key + "=" + value;
    assert t[0] == if key == "" then '=' else key[0];
    assert t[|t| - 1] == if value == "" then '=' else value[|value| - 1];
    Text.StripNoSpaceEnds(t);
    assert t[|key|] == '=' && t[..|key|] == key && t[|key| + 1..] == value;
    ParseEnvLineSplit(t, |key|);
  }

  /** Each line's entry, if it has one. */
  function Entries(lines: seq<string>): (es: seq<Option<(string, string)>>)
    ensures |es| == |lines|
    ensures forall i :: 0 <= i < |lines| ==> es[i] == ParseEnvLine(lines[i])
  {
    seq(|lines|, i requires 0 <= i < |lines| => ParseEnvLine(lines[i]))
  }

  /** Storing the entries in turn. */
  function Store(es: seq<Option<(string, string)>>): (d: Dicts.Dict<string, string>)
    ensures Dicts.Valid(d)
  {
    if |es| == 0 then []
    else
      var d := Store(es[..|es| - 1]);
      match es[|es| - 1]
      case Some(kv) => Dicts.Put(d, kv.0, kv.1)
      case None => d
  }

  /** The `for line in f` loop: each line that parses stores its value under
      its key. */
  function ParseLines(lines: seq<string>): (d: Dicts.Dict<string, string>)
    ensures Dicts.Valid(d)
  {
    Store(Entries(lines))
  }

  /** The position of the last entry for `key`. */
  function LastSetting(es: seq<Option<(string, string)>>, key: string): (r: Option<nat>)
    ensures r.None? <==> forall i :: 0 <= i < |es| ==> es[i].None? || es[i].value.0 != key
    ensures r.Some? ==> r.value < |es| && es[r.value].Some? && es[r.value].value.0 == key
    ensures r.Some? ==> forall j :: r.value < j < |es| ==> es[j].None? || es[j].value.0 != key
  {
    if |es| == 0 then None
    else if es[|es| - 1].Some? && es[|es| - 1].value.0 == key then Some(|es| - 1)
    else LastSetting(es[..|es| - 1], key)
  }

  lemma {:induction false} StoreGet(es: seq<Option<(string, string)>>, key: string)
    ensures Dicts.Get(Store(es), key) == match LastSetting(es, key)
                                         case Some(i) => Some(es[i].value.1)
                                         case None => None
  {
    if |es| > 0 {
      var front := es[..|es| - 1];
      StoreGet(front, key);
      var last := es[|es| - 1];
      if !(last.Some? && last.value.0 == key) {
        assert LastSetting(es, key) == LastSetting(front, key);
        match LastSetting(front, key)
        case Some(i) => assert front[i] == es[i];
        case None =>
      }
    }
  }

  /** A key holds the value of the last line that sets it, and is absent
      when no line sets it. */
  lemma ParseLinesGet(lines: seq<string>, key: string)
    ensures Dicts.Get(ParseLines(lines), key) == match LastSetting(Entries(lines), key)
                                                 case Some(i) => Some(ParseEnvLine(lines[i]).value.1)
                                                 case None => None
  {
    StoreGet(Entries(lines), key);
  }

  /** What the `.env` loader finds at a path: no file, a file it fails to
      read (the error is logged), or the file's lines. */
  datatype EnvFile = Absent | Unreadable | Lines(lines: seq<string>)

  /** `EnvConfigLoader.load`: the file's entries, then the environment on
      top; a read error gives `{}`, without the environment. */
  function LoadEnv(file: EnvFile, environ: Dicts.Dict<string, string>): (r: Dicts.Dict<string, string>)
    ensures file.Unreadable? ==> r == []
    ensures Dicts.Valid(environ) ==> Dicts.Valid(r)
    ensures !file.Unreadable? ==> forall k :: k in Dicts.Keys(environ) ==> k in Dicts.Keys(r)
  {
    match file
    case Unreadable => []
    case Absent =>
      var r := Dicts.Update([], environ);
      forall k | k in Dicts.Keys(environ) ensures k in Dicts.Keys(r) {
        Dicts.UpdateKeys([], environ, k);
        var i :| 0 <= i < |environ| && Dicts.Keys(environ)[i] == k;
      }
      r
    case Lines(lines) =>
      var r := Dicts.Update(ParseLines(lines), environ);
      forall k | k in Dicts.Keys(environ) ensures k in Dicts.Keys(r) {
        Dicts.UpdateKeys(ParseLines(lines), environ, k);
        var i :| 0 <= i < |environ| && Dicts.Keys(environ)[i] == k;
      }
      r
  }

  /** An environment variable overrides the file's entry for its name. */
  lemma EnvOverrides(file: EnvFile, environ: Dicts.Dict<string, string>, k: string)
    requires !file.Unreadable? && Dicts.Valid(environ) && k in Dicts.Keys(environ)
    ensures Dicts.Get(LoadEnv(file, environ), k) == Dicts.Get(environ, k)
  {
    var base := if file.Absent? then [] else ParseLines(file.lines);
    Dicts.UpdateGet(base, environ, k);
    var i := Dicts.LastWith(environ, k).value;
    Dicts.GetEntry(environ, i);
  }

  /** A name the environment lacks keeps the value of the last file line
      that sets it. */
  lemma EnvFileEntry(lines: seq<string>, environ: Dicts.Dict<string, string>, k: string)
    requires k !in Dicts.Keys(environ)
    ensures Dicts.Get(LoadEnv(Lines(lines), environ), k) == match LastSetting(Entries(lines), k)
                                                            case Some(i) => Some(ParseEnvLine(lines[i]).value.1)
                                                            case None => None
  {
    Dicts.UpdateGet(ParseLines(lines), environ, k);
    ParseLinesGet(lines, k);
  }

  // ---------------------------------------------------------- the manager

  type Data = Dicts.Dict<string, Json.Value>

  /** A loaded configuration: the object a schema built from the data, or
      the raw data. */
  datatype Config = Validated(schema: string, data: Data) | Raw(data: Data)

  /** The manager's loaded configurations and registered schemas (schemas
      are named by their class). */
  datatype Manager = Manager(configs: Dicts.Dict<string, Config>, schemas: Dicts.Dict<string, string>)

  /** What the loaders find: which files exist, what the YAML and JSON
      loaders return for a path (`{}` when parsing fails), what the `.env`
      loader finds, and the process environment. */
  datatype Files = Files(present: string -> bool, parsed: string -> Data,
                         env: string -> EnvFile, environ: Dicts.Dict<string, string>)

  /** A dictionary of strings as JSON values. */
  function StrValues(d: Dicts.Dict<string, string>): (r: Data)
    ensures Dicts.Keys(r) == Dicts.Keys(d)
    ensures forall i :: 0 <= i < |d| ==> r[i] == (d[i].0, Json.Str(d[i].1))
  {
    seq(|d|, i requires 0 <= i < |d| => (d[i].0, Json.Str(d[i].1)))
  }

  /** `loader.load(path)`. */
  function Load(l: Loader, path: string, fs: Files): (r: Data)
    ensures l.EnvLoader? ==> Dicts.Keys(r) == Dicts.Keys(LoadEnv(fs.env(path), fs.environ))
    ensures !l.EnvLoader? ==> r == fs.parsed(path)
  {
    match l
    case EnvLoader => StrValues(LoadEnv(fs.env(path), fs.environ))
    case _ => fs.parsed(path)
  }

  /** The files one loader reads for `name`, in extension order. */
  function LoaderPlan(l: Loader, name: string, present: string -> bool, exts: seq<string>): seq<(Loader, string)> {
    if |exts| == 0 then []
    else
      var f := name + exts[0];
      (if present(f) && CanHandle(l, f) then [(l, f)] else []) + LoaderPlan(l, name, present, exts[1..])
  }

  /** The loop of `load_config`: for each loader in turn, each extension
      whose file exists and which that loader reads. */
  function Plan(name: string, present: string -> bool, ls: seq<Loader>): seq<(Loader, string)> {
    if |ls| == 0 then []
    else LoaderPlan(ls[0], name, present, Extensions) + Plan(name, present, ls[1..])
  }

  /** `name + ext` as the loader of `ext` reads it, when the file exists. */
  function Found(name: string, present: string -> bool, ext: string): seq<(Loader, string)> {
    if present(name + ext) then [(LoaderOf(ext), name + ext)] else []
  }

  /** The existing files among `name + ext`, each with its extension's
      loader. */
  function ByExtension(name: string, present: string -> bool, exts: seq<string>): seq<(Loader, string)> {
    if |exts| == 0 then [] else Found(name, present, exts[0]) + ByExtension(name, present, exts[1..])
  }

  /** The existing files among `name + ext` for the extensions of one
      loader. */
  function Existing(l: Loader, name: string, present: string -> bool, exts: seq<string>): seq<(Loader, string)> {
    if |exts| == 0 then []
    else
      var f := name + exts[0];
      (if present(f) && LoaderOf(exts[0]) == l then [(l, f)] else []) + Existing(l, name, present, exts[1..])
  }

  /** One loader's pass reads the existing files of its own extensions, or
      nothing when the final component of `name` is empty. */
  lemma {:induction false} LoaderPlanExisting(l: Loader, name: string, present: string -> bool, exts: seq<string>)
    requires forall e :: e in exts ==> e in Extensions
    ensures LoaderPlan(l, name, present, exts) == if FileName(name) == "" then [] else Existing(l, name, present, exts)
  {
    if |exts| > 0 {
      CanHandleExtension(l, name, exts[0]);
      LoaderPlanExisting(l, name, present, exts[1..]);
    }
  }

  lemma ByExtensionUnfold(name: string, present: string -> bool)
    ensures ByExtension(name, present, Extensions)
            == Found(name, present, ".yaml") + (Found(name, present, ".yml")
               + (Found(name, present, ".json") + Found(name, present, ".env")))
  {
    var e1 := Extensions[1..];
    var e2 := e1[1..];
    var e3 := e2[1..];
    assert Extensions[0] == ".yaml" && e1[0] == ".yml" && e2[0] == ".json" && e3[0] == ".env" && e3[1..] == [];
    assert ByExtension(name, present, e3[1..]) == [];
    assert ByExtension(name, present, e3) == Found(name, present, ".env");
    assert ByExtension(name, present, e2) == Found(name, present, ".json") + ByExtension(name, present, e3);
    assert ByExtension(name, present, e1) == Found(name, present, ".yml") + ByExtension(name, present, e2);
  }

  lemma ExistingYaml(name: string, present: string -> bool)
    ensures Existing(YamlLoader, name, present, Extensions) == Found(name, present, ".yaml") + Found(name, present, ".yml")
  {
    var e1 := Extensions[1..];
    var e2 := e1[1..];
    var e3 := e2[1..];
    assert Extensions[0] == ".yaml" && e1[0] == ".yml" && e2[0] == ".json" && e3[0] == ".env" && e3[1..] == [];
    assert Existing(YamlLoader, name, present, e3[1..]) == [];
    assert Existing(YamlLoader, name, present, e3) == [];
    assert Existing(YamlLoader, name, present, e2) == [];
    assert Existing(YamlLoader, name, present, e1) == Found(name, present, ".yml");
  }

  lemma ExistingJson(name: string, present: string -> bool)
    ensures Existing(JsonLoader, name, present, Extensions) == Found(name, present, ".json")
  {
    var e1 := Extensions[1..];
    var e2 := e1[1..];
    var e3 := e2[1..];
    assert Extensions[0] == ".yaml" && e1[0] == ".yml" && e2[0] == ".json" && e3[0] == ".env" && e3[1..] == [];
    assert Existing(JsonLoader, name, present, e3[1..]) == [];
    assert Existing(JsonLoader, name, present, e3) == [];
    assert Existing(JsonLoader, name, present, e2) == Found(name, present, ".json");
    assert Existing(JsonLoader, name, present, e1) == Found(name, present, ".json");
  }

  lemma ExistingEnv(name: string, present: string -> bool)
    ensures Existing(EnvLoader, name, present, Extensions) == Found(name, present, ".env")
  {
    var e1 := Extensions[1..];
    var e2 := e1[1..];
    var e3 := e2[1..];
    assert Extensions[0] == ".yaml" && e1[0] == ".yml" && e2[0] == ".json" && e3[0] == ".env" && e3[1..] == [];
    assert Existing(EnvLoader, name, present, e3[1..]) == [];
    assert Existing(EnvLoader, name, present, e3) == Found(name, present, ".env");
    assert Existing(EnvLoader, name, present, e2) == Found(name, present, ".env");
    assert Existing(EnvLoader, name, present, e1) == Found(name, present, ".env");
  }

  lemma ByExtensionSplit(name: string, present: string -> bool)
    ensures ByExtension(name, present, Extensions)
            == Existing(YamlLoader, name, present, Extensions) + Existing(JsonLoader, name, present, Extensions)
               + Existing(EnvLoader, name, present, Extensions)
  {
    ByExtensionUnfold(name, present);
    ExistingYaml(name, present);
    ExistingJson(name, present);
    ExistingEnv(name, present);
  }

  lemma PlanLoaders(name: string, present: string -> bool)
    ensures Plan(name, present, Loaders)
            == LoaderPlan(YamlLoader, name, present, Extensions) + LoaderPlan(JsonLoader, name, present, Extensions)
               + LoaderPlan(EnvLoader, name, present, Extensions)
  {
    var y, j, e := LoaderPlan(YamlLoader, name, present, Extensions), LoaderPlan(JsonLoader, name, present, Extensions),
                   LoaderPlan(EnvLoader, name, present, Extensions);
    assert [EnvLoader][1..] == [];
    assert Plan(name, present, [EnvLoader]) == e + [];
    assert [JsonLoader, EnvLoader][1..] == [EnvLoader];
    assert Plan(name, present, [JsonLoader, EnvLoader]) == j + (e + []);
    assert Loaders[1..] == [JsonLoader, EnvLoader];
    assert Plan(name, present, Loaders) == y + (j + (e + []));
  }

  /** Every file a loader's pass reads exists and is one that loader can
      handle. */
  lemma {:induction false} LoaderPlanSound(l: Loader, name: string, present: string -> bool, exts: seq<string>)
    ensures forall e :: e in LoaderPlan(l, name, present, exts) ==> e.0 == l && present(e.1) && CanHandle(l, e.1)
  {
    if |exts| > 0 {
      LoaderPlanSound(l, name, present, exts[1..]);
    }
  }

  /** Every file `load_config` reads exists and is read by a loader that
      can handle it. */
  lemma {:induction false} PlanSound(name: string, present: string -> bool, ls: seq<Loader>)
    ensures forall e :: e in Plan(name, present, ls) ==> e.0 in ls && present(e.1) && CanHandle(e.0, e.1)
  {
    if |ls| > 0 {
      LoaderPlanSound(ls[0], name, present, Extensions);
      PlanSound(name, present, ls[1..]);
    }
  }

  /** `load_config` reads each existing file `name + ext` once, in the order
      .yaml, .yml, .json, .env, with the loader of its extension; when the
      final component of `name` is empty it reads nothing. */
  lemma PlanByExtension(name: string, present: string -> bool)
    ensures Plan(name, present, Loaders) == if FileName(name) == "" then [] else ByExtension(name, present, Extensions)
  {
    LoaderPlanExisting(YamlLoader, name, present, Extensions);
    LoaderPlanExisting(JsonLoader, name, present, Extensions);
    LoaderPlanExisting(EnvLoader, name, present, Extensions);
    ByExtensionSplit(name, present);
    PlanLoaders(name, present);
  }

  /** With none of `name + ext` present no file is read. */
  lemma {:induction false} ByExtensionNone(name: string, present: string -> bool, exts: seq<string>)
    requires forall e :: e in exts ==> !present(name + e)
    ensures ByExtension(name, present, exts) == []
  {
    if |exts| > 0 {
      ByExtensionNone(name, present, exts[1..]);
    }
  }

  /** What each planned file's loader returns, in plan order. */
  function Loaded(p: seq<(Loader, string)>, fs: Files): (ds: seq<Data>)
    ensures |ds| == |p|
    ensures forall i :: 0 <= i < |p| ==> ds[i] == Load(p[i].0, p[i].1, fs)
  {
    seq(|p|, i requires 0 <= i < |p| => Load(p[i].0, p[i].1, fs))
  }

  /** `config_data.update(file_data)` for each loaded file in turn. */
  function Gather(ds: seq<Data>): Data {
    if |ds| == 0 then []
    else Dicts.Update(Gather(ds[..|ds| - 1]), ds[|ds| - 1])
  }

  /** The merged data of the files `load_config` reads for `name`. */
  function ConfigData(name: string, fs: Files): (r: Data)
    ensures FileName(name) == "" ==> r == []
  {
    PlanByExtension(name, fs.present);
    Gather(Loaded(Plan(name, fs.present, Loaders), fs))
  }

  /** With no configuration file present the data is empty. */
  lemma NoFilesNoData(name: string, fs: Files)
    requires forall e :: e in Extensions ==> !fs.present(name + e)
    ensures ConfigData(name, fs) == []
  {
    PlanByExtension(name, fs.present);
    ByExtensionNone(name, fs.present, Extensions);
  }

  /** The position of the last dictionary that has key `k`. */
  function LastHaving(ds: seq<Data>, k: string): (r: Option<nat>)
    ensures r.None? <==> forall i :: 0 <= i < |ds| ==> k !in Dicts.Keys(ds[i])
    ensures r.Some? ==> r.value < |ds| && k in Dicts.Keys(ds[r.value])
    ensures r.Some? ==> forall j :: r.value < j < |ds| ==> k !in Dicts.Keys(ds[j])
  {
    if |ds| == 0 then None
    else if k in Dicts.Keys(ds[|ds| - 1]) then Some(|ds| - 1)
    else LastHaving(ds[..|ds| - 1], k)
  }

  /** Updating with a dictionary: its keys take its values, the others
      keep theirs. */
  lemma UpdateWith(d: Data, e: Data, k: string)
    requires Dicts.Valid(e)
    ensures Dicts.Get(Dicts.Update(d, e), k) == if k in Dicts.Keys(e) then Dicts.Get(e, k) else Dicts.Get(d, k)
  {
    Dicts.UpdateGet(d, e, k);
    match Dicts.LastWith(e, k)
    case Some(j) => Dicts.GetEntry(e, j);
    case None =>
  }

  /** A key of the merged data holds its value in the last loaded file
      that has it: a later file overrides an earlier one key by key. */
  lemma {:induction false} GatherGet(ds: seq<Data>, k: string)
    requires forall i :: 0 <= i < |ds| ==> Dicts.Valid(ds[i])
    ensures Dicts.Get(Gather(ds), k) == match LastHaving(ds, k)
                                        case Some(i) => Dicts.Get(ds[i], k)
                                        case None => None
  {
    if |ds| > 0 {
      var front := ds[..|ds| - 1];
      GatherGet(front, k);
      UpdateWith(Gather(front), ds[|ds| - 1], k);
      if k !in Dicts.Keys(ds[|ds| - 1]) {
        assert LastHaving(ds, k) == LastHaving(front, k);
        match LastHaving(front, k)
        case Some(i) => assert front[i] == ds[i];
        case None =>
      }
    }
  }

  /** `load_config`: a cached configuration is returned as it is.
      Otherwise the planned files are merged and the data is validated
      against the given schema, or else the one registered under the name.
      The validated object is cached, or the raw data when validation fails
      or there is no schema.  `accepts` is whether the schema accepts the
      data. */
  function LoadConfig(m: Manager, name: string, schema: Option<string>, fs: Files, accepts: bool): (r: (Config, Manager))
    ensures Dicts.Get(r.1.configs, name) == Some(r.0)
    ensures r.1.schemas == m.schemas
    ensures forall n :: n != name ==> Dicts.Get(r.1.configs, n) == Dicts.Get(m.configs, n)
    ensures Dicts.Valid(m.configs) ==> Dicts.Valid(r.1.configs)
    ensures Dicts.Get(m.configs, name).Some? ==> r == (Dicts.Get(m.configs, name).value, m)
    ensures Dicts.Get(m.configs, name).None? ==>
              r.0.data == ConfigData(name, fs)
              && (r.0.Validated? <==> accepts && (schema.Some? || Dicts.Get(m.schemas, name).Some?))
              && (r.0.Validated? ==> r.0.schema == if schema.Some? then schema.value else Dicts.Get(m.schemas, name).value)
  {
    match Dicts.Get(m.configs, name)
    case Some(c) => (c, m)
    case None =>
      var data := ConfigData(name, fs);
      var sc := if schema.Some? then schema else Dicts.Get(m.schemas, name);
      var c := if sc.Some? && accepts then Validated(sc.value, data) else Raw(data);
      (c, m.(configs := Dicts.Put(m.configs, name, c)))
  }

  /** A second load returns the first one's configuration and changes
      nothing, whatever files, schema or validation outcome it sees. */
  lemma LoadCached(m: Manager, name: string, schema: Option<string>, fs: Files, accepts: bool,
                   schema': Option<string>, fs': Files, accepts': bool)
    ensures var (c, m1) := LoadConfig(m, name, schema, fs, accepts);
            LoadConfig(m1, name, schema', fs', accepts') == (c, m1)
  {
  }

  /** A schema that rejects the data leaves the raw data cached. */
  lemma ValidationFallback(m: Manager, name: string, schema: Option<string>, fs: Files)
    requires Dicts.Get(m.configs, name).None?
    ensures LoadConfig(m, name, schema, fs, false).0 == Raw(ConfigData(name, fs))
  {
  }

  /** `reload_config`: the cached configuration is dropped, then loaded
      again with the registered schema. */
  function ReloadConfig(m: Manager, name: string, fs: Files, accepts: bool): (r: (Config, Manager))
    requires Dicts.Valid(m.configs)
    ensures r.0.data == ConfigData(name, fs)
    ensures Dicts.Get(r.1.configs, name) == Some(r.0)
    ensures forall n :: n != name ==> Dicts.Get(r.1.configs, n) == Dicts.Get(m.configs, n)
  {
    LoadConfig(m.(configs := Dicts.Delete(m.configs, name)), name, None, fs, accepts)
  }

  /** A reload does not depend on what was cached: two managers with the
      same schemas reload the same configuration. */
  lemma ReloadIgnoresCache(m: Manager, m': Manager, name: string, fs: Files, accepts: bool)
    requires Dicts.Valid(m.configs) && Dicts.Valid(m'.configs) && m.schemas == m'.schemas
    ensures ReloadConfig(m, name, fs, accepts).0 == ReloadConfig(m', name, fs, accepts).0
  {
  }

  /** `set_config`. */
  function SetConfig(m: Manager, name: string, c: Config): (r: Manager)
    ensures Dicts.Get(r.configs, name) == Some(c)
    ensures forall n :: n != name ==> Dicts.Get(r.configs, n) == Dicts.Get(m.configs, n)
    ensures r.schemas == m.schemas
  {
    m.(configs := Dicts.Put(m.configs, name, c))
  }

  /** A configuration that was set is what the next load returns. */
  lemma SetThenLoad(m: Manager, name: string, c: Config, schema: Option<string>, fs: Files, accepts: bool)
    ensures LoadConfig(SetConfig(m, name, c), name, schema, fs, accepts).0 == c
  {
  }

  /** `register_schema`. */
  function RegisterSchema(m: Manager, name: string, schema: string): (r: Manager)
    ensures Dicts.Get(r.schemas, name) == Some(schema)
    ensures forall n :: n != name ==> Dicts.Get(r.schemas, n) == Dicts.Get(m.schemas, n)
    ensures r.configs == m.configs
  {
    m.(schemas := Dicts.Put(m.schemas, name, schema))
  }

  /** The module-level manager with its five registered schemas. */
  const Global: Manager :=
    var m := RegisterSchema(Manager([], []), "app", "AppSettings");
    var m := RegisterSchema(m, "llm", "LLMConfig");
    var m := RegisterSchema(m, "database", "DatabaseConfig");
    var m := RegisterSchema(m, "mcp", "MCPConfig");
    RegisterSchema(m, "novel", "NovelConfig")

  /** On the module-level manager, `load_config("llm")` validates with
      `LLMConfig`, and an unregistered name gives the raw data. */
  lemma GlobalLoads(fs: Files)
    ensures LoadConfig(Global, "llm", None, fs, true).0 == Validated("LLMConfig", ConfigData("llm", fs))
    ensures LoadConfig(Global, "story", None, fs, true).0 == Raw(ConfigData("story", fs))
  {
    var m0 := Manager([], []);
    var m1 := RegisterSchema(m0, "app", "AppSettings");
    var m2 := RegisterSchema(m1, "llm", "LLMConfig");
    var m3 := RegisterSchema(m2, "database", "DatabaseConfig");
    var m4 := RegisterSchema(m3, "mcp", "MCPConfig");
    var m5 := RegisterSchema(m4, "novel", "NovelConfig");
    assert Global == m5;
    assert m5.configs == [];
    assert "llm" != "database" && "llm" != "mcp" && "llm" != "novel";
    assert Dicts.Get(m5.schemas, "llm") == Some("LLMConfig");
    assert "story" != "app" && "story" != "llm" && "story" != "database" && "story" != "mcp" && "story" != "novel";
    assert Dicts.Get(m0.schemas, "story") == None;
    assert Dicts.Get(m5.schemas, "story") == None;
  }
}
