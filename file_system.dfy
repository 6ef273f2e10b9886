/**
  * The Laravel `Filesystem` the console commands read and write, as a map from
  * path to content, and the path helpers that name files in it. Directories are
  * implicit: `makeDirectory` and `ensureDirectoryExists` have no observable
  * effect here. Paths are relative to the application's base directory.
  */
module Disk {
  import opened PhpStrings

  /** Laravel's `joinPaths`: `base`, then `/` and `path` without its leading
      slashes, or `base` alone for an empty `path`. */
  function JoinPaths(base: string, path: string): string {
    if path == "" then base else base + "/" + DropLeading(path, '/')
  }

  /** `app_path($path)`. */
  function AppPath(path: string): string {
    JoinPaths("app", path)
  }

  /** `resource_path($path)`. */
  function ResourcePath(path: string): string {
    JoinPaths("resources", path)
  }

  /** A relative path lands directly under `resources/`. */
  lemma ResourceRelative(path: string)
    requires path != [] && path[0] != '/'
    ensures ResourcePath(path) == "resources/" + path
    ensures |ResourcePath(path)| == 10 + |path|
    ensures ResourcePath(path)[|ResourcePath(path)| - 1] == path[|path| - 1]
  {
  }

  /** A path with one leading slash also lands directly under `resources/`. */
  lemma ResourceAbsolute(rest: string)
    requires rest != [] && rest[0] != '/'
    ensures ResourcePath("/" + rest) == "resources/" + rest
  {
    assert ("/" + rest)[1..] == rest;
    assert DropLeading("/" + rest, '/') == rest;
  }

  /** Distinct relative paths name distinct resource files. */
  lemma ResourceInjective(a: string, b: string)
    requires a != [] && a[0] != '/' && b != [] && b[0] != '/'
    ensures ResourcePath(a) == ResourcePath(b) ==> a == b
  {
    ResourceRelative(a);
    ResourceRelative(b);
    assert a == ("resources/" + a)[10..];
    assert b == ("resources/" + b)[10..];
  }

  /** `base_path($path)`: the base directory itself is the empty prefix. */
  function BasePath(path: string): string {
    DropLeading(path, '/')
  }

  class FileSystem {
    var files: map<string, string>

    constructor (initial: map<string, string>)
      ensures files == initial
    {
      files := initial;
    }

    /** `$files->exists($path)`. */
    predicate Exists(path: string)
      reads this
    {
      path in files
    }

    /** `$files->get($path)`: `None` stands for the `FileNotFoundException`. */
    function Get(path: string): (content: Option<string>)
      reads this
      ensures content.Some? <==> Exists(path)
      ensures content.Some? ==> content.value == files[path]
    {
      if path in files then Some(files[path]) else None
    }

    /** `$files->put($path, $content)`. */
    method Put(path: string, content: string)
      modifies this
      ensures files == old(files)[path := content]
    {
      files := files[path := content];
    }
  }
}
