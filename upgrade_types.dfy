/** Values the upgrader reads and writes: configuration entries, discovered
    packages, the module's stored row, the effects it causes, and its errors. */
module UpgradeTypes {
  import opened Versions

  type Path = string

  datatype Option<T> = None | Some(value: T)

  /** PHP truthiness of a configuration string, read off its length and first character. */
  predicate Truthy(s: string) {
    |s| > 0 && !(|s| == 1 && s[0] == '0')
  }

  /** Only "" and "0" are false. */
  lemma TruthyIff(s: string)
    ensures Truthy(s) <==> s != "" && s != "0"
  {
    if |s| == 1 && s[0] == '0' {
      assert s == "0";
    }
  }

  /** The entry that an upgrade package's conf.php holds under the module's name. */
  datatype PackageConf = PackageConf(
    releaseFrom: Version,
    releaseTo: Version,
    sqlFiles: string,
    phpFiles: string)

  /** A directory listed directly under UPGRADE/, with the entry its conf.php would load. */
  datatype DirEntry = DirEntry(name: string, conf: PackageConf)

  /** A discovered upgrade package: its directory and its configuration entry. */
  datatype Package = Package(path: Path, conf: PackageConf)

  /** The ten descriptive columns of a modules_informations row, as the module's
      base conf.php gives them. */
  datatype ModuleInfo = ModuleInfo(
    name: string,
    rname: string,
    isRemoveable: string,
    infos: string,
    author: string,
    langFiles: string,
    sqlFiles: string,
    phpFiles: string,
    svcTools: string,
    hostTools: string)

  /** The module's row: descriptive columns and the installed release `mod_release`. */
  datatype ModuleRow = ModuleRow(info: ModuleInfo, modRelease: Version)

  /** An effect of the upgrade, in the order it happens: a row update or a script run. */
  datatype Event =
    | UpdateInfo(info: ModuleInfo)
    | SetRelease(release: Version)
    | RunPhp(script: Path)
    | RunSql(script: Path)

  datatype Error = ConfigurationNotFound | ScriptFailed(script: Path)

  /** A call either returns a value or raises. */
  datatype Outcome<T> = Returned(value: T) | Raised(error: Error)

  function UpgradesPath(modulePath: Path): Path {
    modulePath + "/UPGRADE/"
  }

  function ConfPath(dir: Path): Path {
    dir + "/conf.php"
  }

  function SqlPath(dir: Path): Path {
    dir + "/sql/upgrade.sql"
  }

  function PhpPath(dir: Path, pre: bool): Path {
    dir + "/php/upgrade" + (if pre then ".pre.php" else ".php")
  }
}
