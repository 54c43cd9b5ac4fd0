/**
 Paths as text and the files they lead to. A file is the list of names on the way to it from the root;
 `.`, `..` and repeated slashes in a path are resolved on the way. Links are not part of this model.
 */
module Paths {
  import opened Common

  type File = seq<Bytes>

  /** One name further. */
  function Enter(at: File, name: Bytes): File {
    if name == "" || name == "." then at
    else if name == ".." then if at == [] then [] else at[..|at| - 1]
    else at + [name]
  }

  /** Follow the rest of a path, of which the name `cur` has been read so far. */
  function Follow(at: File, cur: Bytes, rest: Bytes): File
    decreases |rest|
  {
    if rest == "" then Enter(at, cur)
    else if rest[0] == '/' then Follow(Enter(at, cur), "", rest[1..])
    else Follow(at, cur + [rest[0]], rest[1..])
  }

  /** The file a path leads to. */
  function Resolve(path: Bytes): File { Follow([], "", path) }

  /** `Path::join`: an absolute second part replaces the first. */
  function Join(base: Bytes, part: Bytes): Bytes {
    if base == "" || (part != "" && part[0] == '/') then part
    else if base[|base| - 1] == '/' then base + part
    else base + "/" + part
  }

  /** `Path::file_name` of a path that does not end in a slash or dots: what follows the last slash. */
  function BaseName(path: Bytes): (r: Bytes)
    ensures '/' !in r
    ensures '/' !in path ==> r == path
    ensures '/' in path ==> exists p :: path == p + "/" + r
  {
    if path == "" || '/' !in path then path
    else if '/' in path[1..] then
      var r := BaseName(path[1..]);
      var p :| path[1..] == p + "/" + r;
      assert path == ([path[0]] + p) + "/" + r;
      r
    else
      assert path[0] == '/' && path == [] + "/" + path[1..];
      path[1..]
  }

  lemma {:induction false} BaseNameAppend(x: Bytes, y: Bytes)
    ensures BaseName(x + "/" + y) == BaseName(y)
    decreases |x|
  {
    var all := x + "/" + y;
    assert all[|x|] == '/';
    if x == "" {
      assert all[1..] == y;
    } else {
      assert all[1..] == x[1..] + "/" + y;
      assert all[1..][|x| - 1] == '/';
      BaseNameAppend(x[1..], y);
    }
  }

  lemma BaseNameJoin(base: Bytes, part: Bytes)
    requires part != ""
    ensures BaseName(Join(base, part)) == BaseName(part)
  {
    if base != "" && part[0] != '/' {
      if base[|base| - 1] == '/' {
        var b := base[..|base| - 1];
        assert base + part == b + "/" + part;
        BaseNameAppend(b, part);
      } else {
        BaseNameAppend(base, part);
      }
    }
  }

  /** One proper name: what `Join` with it enters below the base. */
  predicate Plain(name: Bytes) {
    name != "" && name != "." && name != ".." && '/' !in name
  }

  lemma {:induction false} FollowAppend(at: File, cur: Bytes, x: Bytes, y: Bytes)
    ensures Follow(at, cur, x + "/" + y) == Follow(Follow(at, cur, x), "", y)
    decreases |x|
  {
    var all := x + "/" + y;
    if x == "" {
      assert all == ['/'] + y && all[1..] == y;
    } else {
      assert all[0] == x[0] && all[1..] == x[1..] + "/" + y;
      if x[0] == '/' {
        FollowAppend(Enter(at, cur), "", x[1..], y);
      } else {
        FollowAppend(at, cur + [x[0]], x[1..], y);
      }
    }
  }

  lemma {:induction false} FollowName(at: File, cur: Bytes, name: Bytes)
    requires '/' !in name
    ensures Follow(at, cur, name) == Enter(at, cur + name)
    decreases |name|
  {
    if name == "" {
      assert cur + name == cur;
    } else {
      FollowName(at, cur + [name[0]], name[1..]);
      assert cur + [name[0]] + name[1..] == cur + name;
    }
  }

  /** A relative part is followed from where the base leads. */
  lemma ResolveJoin(base: Bytes, part: Bytes)
    requires part == "" || part[0] != '/'
    ensures Resolve(Join(base, part)) == Follow(Resolve(base), "", part)
  {
    if base != "" {
      if base[|base| - 1] == '/' {
        var b := base[..|base| - 1];
        assert base == b + "/" + "" && base + part == b + "/" + part;
        FollowAppend([], "", b, part);
        FollowAppend([], "", b, "");
      } else {
        FollowAppend([], "", base, part);
      }
    }
  }

  /** An absolute part is followed from the root. */
  lemma ResolveJoinAbsolute(base: Bytes, part: Bytes)
    requires part != "" && part[0] == '/'
    ensures Resolve(Join(base, part)) == Follow([], "", part[1..])
  {
  }

  /** Dots and empty names: one dot and no name stay, two dots go up, any other name goes down. */
  lemma FollowStep(at: File, name: Bytes, rest: Bytes)
    requires '/' !in name
    ensures Follow(at, "", name + "/" + rest) ==
              Follow(if Plain(name) then at + [name]
                     else if name == ".." && at != [] then at[..|at| - 1]
                     else at, "", rest)
  {
    FollowAppend(at, "", name, rest);
    FollowName(at, "", name);
    assert "" + name == name;
  }

  lemma ResolveJoinPlain(base: Bytes, name: Bytes)
    requires Plain(name)
    ensures Resolve(Join(base, name)) == Resolve(base) + [name]
  {
    ResolveJoin(base, name);
    FollowName(Resolve(base), "", name);
    assert "" + name == name;
  }
}
