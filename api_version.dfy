/** The API versions a Peloton client may speak. */
module Api {

  /** `api.Version`: a version name. */
  type Version = string

  const V0: Version := "v0"
  const V1Alpha: Version := "v1alpha"
  const V1: Version := "v1"

  /** `IsV1`: whether the version belongs to the v1 family. */
  function IsV1(v: Version): (r: bool)
    ensures r ==> |v| >= 2 && v[..2] == "v1"
  {
    v == V1 || v == V1Alpha
  }

  /** Of the three named versions, exactly V1 and V1Alpha are v1, and no
      other name is. */
  lemma IsV1Classifies(v: Version)
    ensures IsV1(V1) && IsV1(V1Alpha) && !IsV1(V0)
    ensures v != V1 && v != V1Alpha ==> !IsV1(v)
  {
  }
}
