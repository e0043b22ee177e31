/** The package-provider interface the install planner consults, as data:
    what each provider answers is an input of the model. */
module Packages {
  import opened Results

  /** An installed package as reported by a package manager. */
  datatype Package = Package(name: string)

  /** A package manager: its name, what listing its installed packages
      yields, and whether installing needs user interaction. */
  datatype PackageManager = PackageManager(name: string, installed: Result<seq<Package>>, needsInteraction: bool)

  /** The detected providers: the primary one, and the answer that looking up
      each named provider gives (a name that is absent answers `Ok(None)`). */
  datatype Providers = Providers(primary: Option<PackageManager>, named: map<string, Result<Option<PackageManager>>>)
  {
    /** The primary package manager. */
    function Default(): (m: Option<PackageManager>)
    {
      primary
    }

    /** Looks up the package manager of a named provider. */
    function Get(provider: string): (r: Result<Option<PackageManager>>)
      ensures provider !in named ==> r == Ok(None)
    {
      if provider in named then named[provider] else Ok(None)
    }
  }
}
