/** Names derived from nix store paths (pkgs/nom-web/parser.go). */
module StorePath {
  import opened Text

  /** The "<hash>-<name>" basename: what follows the last slash. */
  function Base(path: string): string {
    var i := LastIndexOf(path, '/');
    if i >= 0 then path[i + 1..] else path
  }

  /** The basename without its "<hash>-" prefix; empty when there is no dash. */
  function Name(path: string): string {
    var base := Base(path);
    var i := IndexOf(base, '-');
    if i >= 0 then base[i + 1..] else ""
  }

  function NameWithoutDrv(path: string): string {
    TrimSuffix(Name(path), ".drv")
  }

  lemma NameOfBase(hash: string, name: string)
    requires '-' !in hash && '/' !in hash && '/' !in name
    ensures '/' !in hash + "-" + name && Name(hash + "-" + name) == name
  {
    var base := hash + "-" + name;
    assert '/' !in base;
    assert base[|hash|] == '-' && base[|hash| + 1..] == name;
  }

  /** The name of a store path is what follows the hash, whatever directory it is in. */
  lemma NameOf(dir: string, hash: string, name: string)
    requires '-' !in hash && '/' !in hash && '/' !in name
    ensures Base(dir + "/" + (hash + "-" + name)) == hash + "-" + name == Base(hash + "-" + name)
    ensures Name(dir + "/" + (hash + "-" + name)) == name == Name(hash + "-" + name)
  {
    NameOfBase(hash, name);
    BaseOf(dir, hash + "-" + name);
    hide Base;
  }

  lemma BaseOf(dir: string, base: string)
    requires '/' !in base
    ensures Base(dir + "/" + base) == base == Base(base)
  {
    var path := dir + "/" + base;
    assert path[|dir|] == '/' && path[|dir| + 1..] == base;
  }

  lemma NameOfDrv(dir: string, hash: string, name: string)
    requires '-' !in hash && '/' !in hash && '/' !in name
    ensures NameWithoutDrv(dir + "/" + (hash + "-" + (name + ".drv"))) == name
  {
    assert '/' !in name + ".drv";
    NameOf(dir, hash, name + ".drv");
    assert (name + ".drv")[|name|..] == ".drv" && (name + ".drv")[..|name|] == name;
  }
}
