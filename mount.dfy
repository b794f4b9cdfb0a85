/**
 * Mount-target normalisation and the mount/unmount entry points
 * (modules/axfs/src/api/mount.rs).
 *
 * `ToRootPath` is the pure path join. The process-wide state of `axfs::root`
 * that `mount`/`unmount` read and change is the class `Root`: the current
 * directory, the filesystems `find_mounted_fs` can find (keyed by source
 * name) and the mount table (keyed by normalised target path).
 * `root::mount_fs` is not part of this model: whether it accepts a
 * mount is an input of `Mount`.
 */
module Mount {
  import opened Errors

  type FsId = nat

  predicate StartsWithSlash(p: string)
  {
    |p| > 0 && p[0] == '/'
  }

  predicate StartsWithDotSlash(p: string)
  {
    |p| >= 2 && p[0] == '.' && p[1] == '/'
  }

  /**
   * `to_root_path(path)` with `root::current_dir()` equal to `cwd`: the empty
   * path is refused, an absolute path is kept, and a relative one loses at
   * most one leading `./` and is appended to `cwd` after a `/`. Nothing is
   * collapsed.
   */
  function ToRootPath(path: string, cwd: string): (r: Result<string, AxError>)
    ensures r.Err? <==> path == ""
    ensures r.Err? ==> r.error == InvalidInput
    ensures StartsWithSlash(path) ==> r == Ok(path)
    ensures r.Ok? && !StartsWithSlash(path) ==>
      |r.value| == |cwd| + 1 + |path| - (if StartsWithDotSlash(path) then 2 else 0)
  {
    if path == "" then Err(InvalidInput)
    else if StartsWithSlash(path) then Ok(path)
    else
      var rest := if StartsWithDotSlash(path) then path[2..] else path;
      Ok(cwd + "/" + rest)
  }

  /** A relative path is `cwd`, a `/`, and the path minus one leading `./`, verbatim. */
  lemma RelativeJoin(path: string, cwd: string)
    requires path != "" && !StartsWithSlash(path)
    ensures StartsWithDotSlash(path) ==> ToRootPath(path, cwd) == Ok(cwd + "/" + path[2..])
    ensures !StartsWithDotSlash(path) ==> ToRootPath(path, cwd) == Ok(cwd + "/" + path)
  {
  }

  /** Only one `./` is stripped and `..` is not resolved. */
  lemma NoCollapsing()
    ensures ToRootPath("././a", "/b") == Ok("/b/./a")
    ensures ToRootPath("../a", "/b") == Ok("/b/../a")
  {
    assert "././a"[2..] == "./a";
    assert "/b" + "/" + "./a" == "/b/./a";
    assert "/b" + "/" + "../a" == "/b/../a";
  }

  /** With an absolute (or empty) current directory every accepted path becomes absolute. */
  lemma ToRootPathAbsolute(path: string, cwd: string)
    requires cwd == "" || StartsWithSlash(cwd)
    requires path != ""
    ensures StartsWithSlash(ToRootPath(path, cwd).value)
  {
    if !StartsWithSlash(path) {
      var rest := if StartsWithDotSlash(path) then path[2..] else path;
      assert (cwd + "/" + rest)[0] == (if cwd == "" then '/' else cwd[0]);
    }
  }

  /** With such a current directory, normalising twice is normalising once. */
  lemma ToRootPathIdempotent(path: string, cwd: string)
    requires cwd == "" || StartsWithSlash(cwd)
    requires path != ""
    ensures ToRootPath(ToRootPath(path, cwd).value, cwd) == ToRootPath(path, cwd)
  {
    ToRootPathAbsolute(path, cwd);
  }

  /** A relative current directory breaks idempotence: the join is applied again. */
  lemma RelativeCwdNotIdempotent()
    ensures ToRootPath("b", "a") == Ok("a/b")
    ensures ToRootPath("a/b", "a") == Ok("a/a/b")
  {
    assert "a" + "/" + "b" == "a/b";
    assert "a" + "/" + "a/b" == "a/a/b";
  }

  class Root {
    /** `root::current_dir()`. */
    var cwd: string
    /** What `root::find_mounted_fs(source)` finds. */
    var available: map<string, FsId>
    /** The mount table: normalised target path to filesystem. */
    var mounts: map<string, FsId>

    constructor (cwd: string, available: map<string, FsId>)
      ensures this.cwd == cwd && this.available == available && mounts == map[]
    {
      this.cwd := cwd;
      this.available := available;
      mounts := map[];
    }

    /**
     * `mount(source, target, fstype, flags, data)`; `attachAccepted` is the
     * verdict of `root::mount_fs`. `to_root_path(target).unwrap()` panics on
     * an empty target once the source has been found, hence the requires.
     */
    method Mount(source: string, target: string, fstype: string, flags: nat, attachAccepted: bool)
      returns (code: int)
      requires source in available ==> target != ""
      modifies this`mounts
      ensures source !in available ==> code == -1 && mounts == old(mounts)
      ensures source in available && attachAccepted ==>
        code == 0 && mounts == old(mounts)[ToRootPath(target, cwd).value := available[source]]
      ensures source in available && !attachAccepted ==> code == -1 && mounts == old(mounts)
    {
      if source !in available {
        return -1;
      }
      var fs := available[source];
      var key := ToRootPath(target, cwd).value;
      if !attachAccepted {
        return -1;
      }
      mounts := mounts[key := fs];
      return 0;
    }

    /** `unmount(target)`: detach the normalised target; always 0. */
    method Unmount(target: string) returns (code: int)
      requires target != ""
      modifies this`mounts
      ensures code == 0
      ensures mounts == old(mounts) - {ToRootPath(target, cwd).value}
    {
      var key := ToRootPath(target, cwd).value;
      mounts := mounts - {key};
      return 0;
    }
  }

  /** A mount that succeeded followed by an unmount of the same target leaves no mount point there. */
  method MountThenUnmount(root: Root, source: string, target: string)
    requires source in root.available && target != ""
    modifies root
    ensures ToRootPath(target, root.cwd).value !in root.mounts
    ensures root.mounts == old(root.mounts) - {ToRootPath(target, root.cwd).value}
  {
    var c1 := root.Mount(source, target, "", 0, true);
    var c2 := root.Unmount(target);
  }
}
