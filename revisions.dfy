/**
 * Where the Java and the Kotlin revisions agree and where they part: the
 * loader names are the same under a different declaration order, and the
 * Kotlin Modrinth release check accepts every release type the Java one
 * accepts, and more, because it lowercases first.
 */
module Revisions {
  import opened Wrappers
  import JavaTypes
  import KotlinTypes
  import Text
  import KotlinModrinthPublisher

  /** The Kotlin loader constant of the same name. */
  function KotlinLoader(l: JavaTypes.LoaderType): (k: KotlinTypes.LoaderType)
    ensures KotlinTypes.LoaderWireName(k) == JavaTypes.LoaderWireName(l)
  {
    match l
    case Fabric => KotlinTypes.Fabric
    case Quilt => KotlinTypes.Quilt
    case Forge => KotlinTypes.Forge
    case NeoForge => KotlinTypes.NeoForge
  }

  /** Both revisions decode the same loader names, to constants of the same name. */
  lemma LoaderNamesAgree(name: string)
    ensures JavaTypes.ParseLoaderType(name).Some? <==> KotlinTypes.ParseLoaderType(name).Some?
    ensures JavaTypes.ParseLoaderType(name).Some? ==>
      KotlinTypes.ParseLoaderType(name) == Some(KotlinLoader(JavaTypes.ParseLoaderType(name).value))
  {
  }

  /** The same loader sits at another ordinal: Fabric is first in Java and third in Kotlin. */
  lemma LoaderOrdinalsDiffer()
    ensures JavaTypes.LoaderOrdinal(JavaTypes.Fabric) == 0
    ensures KotlinTypes.LoaderOrdinal(KotlinLoader(JavaTypes.Fabric)) == 2
  {
  }

  /** The three accepted names are already lower case. */
  lemma ValidNamesAreLowercase(name: string)
    requires name in JavaTypes.ValidReleaseTypes
    ensures Text.Lowercase(name) == name
  {
    assert name == "release" || name == "beta" || name == "alpha";
    LowercaseLetters(name);
  }

  /** Each of the three names is spelt in lower-case letters. */
  lemma LowercaseLetters(s: string)
    requires s == "release" || s == "beta" || s == "alpha"
    ensures Text.Lowercase(s) == s
  {
    forall i | 0 <= i < |s| ensures 'a' <= s[i] <= 'z' {
      if s == "release" {
        assert s[i] in "release";
      } else if s == "beta" {
        assert s[i] in "beta";
      } else {
        assert s[i] in "alpha";
      }
    }
    NoUpperUnchanged(s);
  }

  /** A string of lower-case ASCII letters is its own lower-case form. */
  lemma NoUpperUnchanged(s: string)
    requires forall i :: 0 <= i < |s| ==> 'a' <= s[i] <= 'z'
    ensures Text.Lowercase(s) == s
  {
    var r := Text.Lowercase(s);
    forall i | 0 <= i < |s| ensures r[i] == s[i] {
      assert r[i] == Text.LowerChar(s[i]);
    }
  }

  /**
   * Every release type the Java Modrinth check accepts (an exact match)
   * passes the Kotlin check too, but not conversely: "Beta" is refused by
   * the first and accepted by the second.
   */
  lemma KotlinReleaseCheckIsLaxer(releaseType: string)
    ensures releaseType in JavaTypes.ValidReleaseTypes ==> KotlinModrinthPublisher.ReleaseTypeAccepted(releaseType)
    ensures "Beta" !in JavaTypes.ValidReleaseTypes && KotlinModrinthPublisher.ReleaseTypeAccepted("Beta")
  {
    if releaseType in JavaTypes.ValidReleaseTypes {
      ValidNamesAreLowercase(releaseType);
    }
    assert Text.Lowercase("Beta") == "beta" by {
      assert Text.Lowercase("Beta")[0] == 'b';
    }
  }
}
