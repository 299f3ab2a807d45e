/**
  The local-file backend: how an image key becomes a file path under BaseDir, and how Load
  and Save use that path against a file system.

  The file system is an object holding a map from path to contents and a set of directories.
  os.Stat, os.Open, io.ReadAll, os.MkdirAll, os.Create and Write are modelled by their effect
  on that object and by the one error each can report here.
 */
module FileStore {
  import opened Base
  import opened Errors
  import opened Paths

  /**
    An entry of FileStore.Blacklists. A regular expression is given by the keys it matches;
    one made only of literal characters matches exactly the keys that contain them.
   */
  datatype Blacklist =
    | Literal(needle: string)
    | Pattern(matches: string -> bool)

  /** The default blacklist `/\.`: the key contains "/.", that is, some element starts with a dot. */
  const DotFile := Literal("/.")

  predicate Matches(b: Blacklist, key: string) {
    match b
    case Literal(needle) => Contains(key, needle)
    case Pattern(m) => m(key)
  }

  predicate Blacklisted(blacklists: seq<Blacklist>, key: string) {
    exists j :: 0 <= j < |blacklists| && Matches(blacklists[j], key)
  }

  /** The blacklists include the default dot-file rule. */
  predicate HasDotFileRule(blacklists: seq<Blacklist>) {
    exists j :: 0 <= j < |blacklists| && blacklists[j].Literal? && blacklists[j].needle == "/."
  }

  /** The normalised key of an image: ":/" escaped, cleaned, then given exactly one leading slash. */
  function Key(image: string): (key: string)
    ensures Rooted(key)
  {
    "/" + TrimPrefix(Clean(EscapeScheme(image)), "/")
  }

  /**
    No ":/" is left in the key. The replacement removes every one, and cleaning cannot create
    a new one: only the last element can end with ':', and no slash follows the last element.
   */
  lemma KeyHasNoSchemeSeparator(image: string)
    ensures !Contains(Key(image), ":/")
  {
    var escaped := EscapeScheme(image);
    var rooted := Rooted(escaped);
    var elems := Elements(escaped);
    var out := Resolve([], elems, rooted);
    EscapeSchemeRemovesAll(image);
    ContainsSeparator(escaped);
    SplitColonOnlyLast(escaped);
    SignificantColonOnlyLast(Split(escaped));
    assert [] + elems == elems;
    ResolveColonOnlyLast([], elems, rooted);
    ElementsArePlain(escaped);
    ResolvePlain([], elems, rooted);
    JoinNoSchemeSeparator(out);
    if !rooted && out == [] {
      assert Key(image) == "/.";
    } else {
      if !rooted {
        assert out[0] in out;
        JoinStartsWithFirst(out);
      }
      assert Key(image) == "/" + Join(out);
    }
    ContainsSeparator(Key(image));
  }

  /**
    Where FileStore.Path puts an image: nil when a blacklist matches the key or the key does
    not start with the path prefix, otherwise BaseDir joined with the key minus the prefix.
   */
  function Locate(baseDir: string, pathPrefix: string, blacklists: seq<Blacklist>, image: string)
    : (r: Option<string>)
    ensures r.Some? <==> !Blacklisted(blacklists, Key(image)) && HasPrefix(Key(image), pathPrefix)
  {
    var key := Key(image);
    if Blacklisted(blacklists, key) || !HasPrefix(key, pathPrefix) then None
    else Some(JoinPath(baseDir, TrimPrefix(key, pathPrefix)))
  }

  /** The loop of FileStore.Path over its blacklists: stop at the first one that matches. */
  method MatchesAny(blacklists: seq<Blacklist>, key: string) returns (found: bool)
    ensures found <==> Blacklisted(blacklists, key)
  {
    var i := 0;
    while i < |blacklists|
      invariant 0 <= i <= |blacklists|
      invariant forall j :: 0 <= j < i ==> !Matches(blacklists[j], key)
    {
      if Matches(blacklists[i], key) {
        return true;
      }
      i := i + 1;
    }
    return false;
  }

  /** A functional option of filestore.New (option.go is not part of this model). */
  datatype StoreOption =
    | WithPathPrefix(prefix: string)
    | WithBlacklist(blacklist: Blacklist)

  /** The path prefix after the options: the last WithPathPrefix, or `current`. */
  function PrefixAfter(options: seq<StoreOption>, current: string): string {
    if options == [] then current
    else if options[|options| - 1].WithPathPrefix? then options[|options| - 1].prefix
    else PrefixAfter(options[..|options| - 1], current)
  }

  /** The blacklists the options add, in order. */
  function BlacklistsAdded(options: seq<StoreOption>): seq<Blacklist> {
    if options == [] then []
    else
      var last := options[|options| - 1];
      BlacklistsAdded(options[..|options| - 1]) + (if last.WithBlacklist? then [last.blacklist] else [])
  }

  /** Error values of the file-system calls. */
  function StatError(p: string): Error { Other("stat " + p + ": no such file or directory") }
  function MkdirError(p: string): Error { Other("mkdir " + p + ": not a directory") }
  function CreateError(p: string): Error { Other("open " + p + ": is a directory") }
  function ReadError(p: string): Error { Other("read " + p + ": is a directory") }

  /** The file system the store reads and writes. */
  class FileSystem {
    var files: map<string, Bytes>
    var dirs: set<string>

    /** A path is a file or a directory, not both. */
    ghost predicate Valid()
      reads this
    {
      files.Keys !! dirs
    }

    constructor (files: map<string, Bytes>, dirs: set<string>)
      requires files.Keys !! dirs
      ensures Valid() && this.files == files && this.dirs == dirs
    {
      this.files := files;
      this.dirs := dirs;
    }

    /** os.Stat succeeds. */
    predicate Exists(p: string)
      reads this
    {
      p in files || p in dirs
    }
  }

  class FileStore {
    var baseDir: string
    var pathPrefix: string
    var blacklists: seq<Blacklist>

    /** filestore.New: BaseDir as given, PathPrefix "/", the dot-file blacklist, then the options. */
    constructor New(baseDir: string, options: seq<StoreOption>)
      ensures this.baseDir == baseDir
      ensures pathPrefix == PrefixAfter(options, "/")
      ensures blacklists == [DotFile] + BlacklistsAdded(options)
    {
      this.baseDir := baseDir;
      pathPrefix := "/";
      blacklists := [DotFile];
      new;
      var i := 0;
      while i < |options|
        invariant 0 <= i <= |options|
        invariant this.baseDir == baseDir
        invariant pathPrefix == PrefixAfter(options[..i], "/")
        invariant blacklists == [DotFile] + BlacklistsAdded(options[..i])
      {
        assert options[..i + 1][..i] == options[..i];
        Apply(options[i]);
        i := i + 1;
      }
      assert options[..i] == options;
    }

    /** One functional option applied to the store. */
    method Apply(option: StoreOption)
      modifies this
      ensures baseDir == old(baseDir)
      ensures pathPrefix == if option.WithPathPrefix? then option.prefix else old(pathPrefix)
      ensures blacklists == old(blacklists) + if option.WithBlacklist? then [option.blacklist] else []
    {
      match option
      case WithPathPrefix(prefix) => pathPrefix := prefix;
      case WithBlacklist(b) => blacklists := blacklists + [b];
    }

    /** FileStore.Path: the file path of an image and whether the image may be stored at all. */
    method Path(image: string) returns (p: string, ok: bool)
      ensures ok <==> Locate(baseDir, pathPrefix, blacklists, image).Some?
      ensures p == if ok then Locate(baseDir, pathPrefix, blacklists, image).value else ""
    {
      var key := Key(image);
      var refused := MatchesAny(blacklists, key);
      if refused || !HasPrefix(key, pathPrefix) {
        return "", false;
      }
      p, ok := JoinPath(baseDir, TrimPrefix(key, pathPrefix)), true;
      assert Locate(baseDir, pathPrefix, blacklists, image) == Some(p);
    }

    /**
      FileStore.Load: Pass for a key the store does not take, not found for a missing file,
      otherwise the file's contents.
     */
    method Load(fs: FileSystem, image: string) returns (buf: Bytes, err: Option<Error>)
      ensures var loc := Locate(baseDir, pathPrefix, blacklists, image);
        && (loc.None? ==> buf == [] && err == Some(ErrPass))
        && (loc.Some? && !fs.Exists(loc.value) ==> buf == [] && err == Some(ErrNotFound))
        && (loc.Some? && loc.value in fs.files ==> buf == fs.files[loc.value] && err.None?)
        && (loc.Some? && loc.value !in fs.files && loc.value in fs.dirs ==>
              buf == [] && err == Some(ReadError(loc.value)))
    {
      var p, ok := Path(image);
      if !ok {
        return [], Some(ErrPass);
      }
      if !fs.Exists(p) {
        return [], Some(ErrNotFound);
      }
      if p in fs.files {
        return fs.files[p], None;
      }
      return [], Some(ReadError(p));
    }

    /**
      FileStore.Save: BaseDir must exist (checked before the key), then the key must be taken,
      then the file's directory is created and the file written.
     */
    method Save(fs: FileSystem, image: string, buf: Bytes) returns (err: Option<Error>)
      requires fs.Valid()
      modifies fs
      ensures fs.Valid()
      ensures !old(fs.Exists(baseDir)) ==> err == Some(StatError(baseDir)) && unchanged(fs)
      ensures old(fs.Exists(baseDir)) && Locate(baseDir, pathPrefix, blacklists, image).None? ==>
                err == Some(ErrPass) && unchanged(fs)
      ensures old(fs.Exists(baseDir)) && Locate(baseDir, pathPrefix, blacklists, image).Some? ==>
                var p := Locate(baseDir, pathPrefix, blacklists, image).value;
                var d := Dir(p);
                && (d in old(fs.files) ==> err == Some(MkdirError(d)) && unchanged(fs))
                && (d !in old(fs.files) && p in old(fs.dirs) + {d} ==>
                      err == Some(CreateError(p)) && fs.dirs == old(fs.dirs) + {d} && fs.files == old(fs.files))
                && (d !in old(fs.files) && p !in old(fs.dirs) + {d} ==>
                      err.None? && fs.dirs == old(fs.dirs) + {d} && fs.files == old(fs.files)[p := buf])
    {
      if !fs.Exists(baseDir) {
        return Some(StatError(baseDir));
      }
      var p, ok := Path(image);
      if !ok {
        return Some(ErrPass);
      }
      var d := Dir(p);
      if d in fs.files {
        return Some(MkdirError(d));
      }
      fs.dirs := fs.dirs + {d};
      if p in fs.dirs {
        return Some(CreateError(p));
      }
      fs.files := fs.files[p := buf];
      return None;
    }
  }

  /** What Save wrote, Load reads back: both go through the same Path. */
  method SaveThenLoad(s: FileStore, fs: FileSystem, image: string, buf: Bytes)
    returns (saveErr: Option<Error>, got: Bytes, loadErr: Option<Error>)
    requires fs.Valid()
    modifies fs
    ensures saveErr.None? ==> got == buf && loadErr.None?
  {
    saveErr := s.Save(fs, image, buf);
    got, loadErr := s.Load(fs, image);
  }

  // ---------------------------------------------------------------------------------------
  // Properties of the key mapping

  /**
    A URL image "scheme://a/b/..." is stored under "/scheme%3A/a/b/...": every ":/" is escaped
    before cleaning, so the scheme stays one element.
   */
  lemma SchemeKey(scheme: string, xs: seq<string>)
    requires scheme != [] && ':' !in scheme && '/' !in scheme
    requires xs != [] && forall e :: e in xs ==> Plain(e) && e != ".."
    requires ':' !in Join(xs)
    ensures Key(scheme + "://" + Join(xs)) == "/" + scheme + "%3A/" + Join(xs)
  {
    var escaped := scheme + "%3A/" + Join(xs);
    SchemeEscaped(scheme, Join(xs));
    SchemeCleaned(scheme, xs);
    assert Key(scheme + "://" + Join(xs)) == "/" + TrimPrefix(escaped, "/");
    assert escaped[0] == scheme[0];
  }

  lemma SchemeEscaped(scheme: string, j: string)
    requires ':' !in scheme && ':' !in j
    ensures EscapeScheme(scheme + "://" + j) == scheme + "%3A/" + j
  {
    var t := "/" + j;
    assert scheme + "://" + j == scheme + (":/" + t) by { assert "://" == ":/" + "/"; }
    EscapeSchemeAppend(scheme, ":/" + t);
    SeparatorEscaped(j);
    assert scheme + "%3A/" + j == scheme + ("%3A" + t) by { assert "%3A/" == "%3A" + "/"; }
  }

  lemma SeparatorEscaped(j: string)
    requires ':' !in j
    ensures EscapeScheme(":/" + ("/" + j)) == "%3A" + ("/" + j)
  {
    var t := "/" + j;
    assert HasPrefix(":/" + t, ":/") && (":/" + t)[2..] == t;
    assert ':' !in t;
    EscapeSchemeAppend(t, "");
    assert t + "" == t;
  }

  lemma SchemeCleaned(scheme: string, xs: seq<string>)
    requires scheme != [] && '/' !in scheme
    requires xs != [] && forall e :: e in xs ==> Plain(e) && e != ".."
    ensures Clean(scheme + "%3A/" + Join(xs)) == scheme + "%3A/" + Join(xs)
  {
    var h := scheme + "%3A";
    assert Plain(h) && h != ".." by { assert h[|h| - 1] == 'A'; }
    assert ([h] + xs)[1..] == xs;
    assert Join([h] + xs) == h + "/" + Join(xs);
    assert h + "/" + Join(xs) == scheme + "%3A/" + Join(xs);
    CleanOfPlain([h] + xs);
  }

  lemma SchemeKeyExample()
    ensures Key("http://h/x") == "/http%3A/h/x"
  {
    var xs := ["h", "x"];
    assert Join(xs) == "h/x";
    assert "http" + "://" + "h/x" == "http://h/x";
    assert "/" + "http" + "%3A/" + "h/x" == "/http%3A/h/x";
    SchemeKey("http", xs);
  }

  /** The empty image becomes "/.". */
  lemma EmptyKeyExample()
    ensures Key("") == "/."
  {
    assert Elements("") == [] by { assert Split("") == [[]]; }
    assert Clean("") == ".";
  }

  /** A relative parent reference keeps its "..": "../a" becomes "/../a". */
  lemma ParentKeyExample()
    ensures Key("../a") == "/../a"
  {
    ParentEscaped();
    ParentCleaned();
    assert Key("../a") == "/" + TrimPrefix("../a", "/");
    assert !HasPrefix("../a", "/");
  }

  lemma ParentEscaped()
    ensures EscapeScheme("../a") == "../a"
  {
    EscapeSchemeAppend("../a", "");
    assert "../a" + "" == "../a";
  }

  lemma ParentCleaned()
    ensures Clean("../a") == "../a"
  {
    var xs := ["..", "a"];
    assert "../a" == Join(xs);
    assert Plain("..") && Plain("a");
    ElementsJoin(xs);
    assert Resolve([], xs, false) == xs by {
      assert Step([], "..", false) == [".."];
      assert Step([".."], "a", false) == xs;
      assert xs[1..] == ["a"];
    }
    assert !Rooted("../a");
  }

  /** A key some blacklist matches is refused. */
  lemma BlacklistedRefused(baseDir: string, pathPrefix: string, blacklists: seq<Blacklist>, image: string)
    requires Blacklisted(blacklists, Key(image))
    ensures Locate(baseDir, pathPrefix, blacklists, image).None?
  {
  }

  /** The empty image and a relative parent reference are refused under the dot-file rule. */
  lemma DotKeysRefused(baseDir: string, pathPrefix: string, blacklists: seq<Blacklist>)
    requires HasDotFileRule(blacklists)
    ensures Locate(baseDir, pathPrefix, blacklists, "").None?
    ensures Locate(baseDir, pathPrefix, blacklists, "../a").None?
  {
    EmptyKeyExample();
    ParentKeyExample();
    var j :| 0 <= j < |blacklists| && blacklists[j].Literal? && blacklists[j].needle == "/.";
    assert Matches(blacklists[j], "/.");
    assert Matches(blacklists[j], "/../a");
  }

  /**
    Under the dot-file rule and a path prefix that ends in a slash (the default "/"), an
    accepted image stays under BaseDir: the path has BaseDir's root and cleaned elements,
    followed by elements of the key, none of which starts with a dot (so none is "." or "..").
   */
  lemma StaysUnderBaseDir(baseDir: string, pathPrefix: string, blacklists: seq<Blacklist>, image: string)
    requires baseDir != ""
    requires HasDotFileRule(blacklists)
    requires pathPrefix != "" && pathPrefix[|pathPrefix| - 1] == '/'
    requires Locate(baseDir, pathPrefix, blacklists, image).Some?
    ensures var p := Locate(baseDir, pathPrefix, blacklists, image).value;
      var tail := Elements(TrimPrefix(Key(image), pathPrefix));
      && Rooted(p) == Rooted(baseDir)
      && Elements(p) == Elements(Clean(baseDir)) + tail
      && forall e :: e in tail ==> Plain(e) && e[0] != '.'
  {
    var key := Key(image);
    var j :| 0 <= j < |blacklists| && blacklists[j].Literal? && blacklists[j].needle == "/.";
    assert !Matches(blacklists[j], key);
    var rest := TrimPrefix(key, pathPrefix);
    RestAfterSlashPrefix(key, pathPrefix);
    DotFreeElements(rest);
    ElementsArePlain(rest);
    JoinWithoutParent(baseDir, rest);
  }

  /** What follows a prefix ending in a slash, in a key without "/.", neither contains "/." nor starts with a dot. */
  lemma RestAfterSlashPrefix(key: string, pathPrefix: string)
    requires !Contains(key, "/.")
    requires HasPrefix(key, pathPrefix)
    requires pathPrefix != "" && pathPrefix[|pathPrefix| - 1] == '/'
    ensures var rest := TrimPrefix(key, pathPrefix); !Contains(rest, "/.") && (rest == [] || rest[0] != '.')
  {
    var n := |pathPrefix|;
    var rest := key[n..];
    assert TrimPrefix(key, pathPrefix) == rest;
    if Contains(rest, "/.") {
      ContainsInSuffix(key, n, "/.");
    }
    if rest != [] && rest[0] == '.' {
      assert key[n - 1] == pathPrefix[n - 1];
      assert key[n - 1..][..2] == "/.";
      ContainsInSuffix(key, n - 1, "/.");
    }
  }

  /**
    The prefix test is a plain string test: with PathPrefix "/a" the image "a../x" passes the
    dot-file rule (its key "/a../x" has no "/.") and is mapped outside BaseDir "/data".
   */
  lemma PrefixWithoutSlashEscapes()
    ensures Key("a../x") == "/a../x"
    ensures Locate("/data", "/a", [DotFile], "a../x") == Some("/x")
  {
    WitnessKey();
    WitnessNotDotFile();
    WitnessPrefix();
    WitnessJoin();
  }

  lemma WitnessKey()
    ensures Key("a../x") == "/a../x"
  {
    var xs := ["a..", "x"];
    assert Join(xs) == "a../x";
    PlainKey(xs);
    assert "/" + "a../x" == "/a../x";
  }

  lemma WitnessPrefix()
    ensures HasPrefix("/a../x", "/a") && TrimPrefix("/a../x", "/a") == "../x"
  {
  }

  /** An image made of plain elements without colons or ".." keeps its path as key. */
  lemma PlainKey(xs: seq<string>)
    requires xs != [] && forall e :: e in xs ==> Plain(e) && e != ".."
    requires ':' !in Join(xs)
    ensures Key(Join(xs)) == "/" + Join(xs)
  {
    var j := Join(xs);
    assert EscapeScheme(j) == j by {
      EscapeSchemeAppend(j, "");
      assert j + "" == j;
    }
    CleanOfPlain(xs);
    assert Key(j) == "/" + TrimPrefix(j, "/");
    assert xs[0] in xs;
    JoinStartsWithFirst(xs);
  }

  lemma WitnessNotDotFile()
    ensures !Blacklisted([DotFile], "/a../x")
  {
    var s := "/a../x";
    assert !HasPrefix(s[5..], "/.");
    assert s[4..][1] == 'x';
    assert !HasPrefix(s[4..], "/.") && s[4..][1..] == s[5..];
    assert !HasPrefix(s[3..], "/.") && s[3..][1..] == s[4..];
    assert s[2..][0] == '.';
    assert !HasPrefix(s[2..], "/.") && s[2..][1..] == s[3..];
    assert !HasPrefix(s[1..], "/.") && s[1..][1..] == s[2..];
    assert !HasPrefix(s, "/.");
    assert !Contains(s[5..], "/.") by { assert s[5..][1..] == []; }
    assert !Contains(s[4..], "/.");
    assert !Contains(s[3..], "/.");
    assert !Contains(s[2..], "/.");
    assert !Contains(s[1..], "/.");
    assert !Contains(s, "/.");
    assert !Matches(DotFile, s);
  }

  lemma WitnessJoin()
    ensures JoinPath("/data", "../x") == "/x"
  {
    var xs := ["data", "..", "x"];
    assert Join(xs) == "data/../x";
    assert "/data" + "/" + "../x" == "/" + Join(xs);
    assert Resolve([], xs, true) == ["x"] && "/" + Join(["x"]) == "/x";
    ElementsJoin(xs);
    assert Clean("/" + Join(xs)) == "/" + Join(Resolve([], xs, true));
  }


}
