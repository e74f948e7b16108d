/** The credential collaborators the handlers call and the token payload they build.
    Hashing, verification and the token lifetime come from a module that is not part
    of this model, so they are fixed once in a configuration value. */
module Credentials {

  /** `hashPassword` and `verifyPassword` are the opaque password primitives;
      `accessTokenExpireMinutes` is the token lifetime. */
  datatype Config = Config(
    hashPassword: string -> string,
    verifyPassword: (string, string) -> bool,
    accessTokenExpireMinutes: nat)

  /** A claim value of a token payload: a string, or an instant in clock seconds. */
  datatype Claim = Text(text: string) | Instant(seconds: nat)

  /** The claims dictionary that is signed into a token. */
  type Payload = map<string, Claim>

  /** The payload of `create_access_token`: the input claims, with `exp` set to `now`
      plus the token lifetime (whole minutes, 60 clock seconds each). The signing
      step itself is not modelled. */
  function CreateAccessToken(data: Payload, now: nat, expireMinutes: nat): (p: Payload)
    ensures p.Keys == data.Keys + {"exp"}
    ensures p["exp"] == Instant(now + 60 * expireMinutes)
    ensures forall k :: k in data && k != "exp" ==> p[k] == data[k]
  {
    data["exp" := Instant(now + 60 * expireMinutes)]
  }
}
