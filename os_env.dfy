/** The process environment (`os.environ`) the helpers read their settings
    from and store a refreshed access token in. */
module OsEnv {
  import opened Py

  const TokenKey := "SF_ACCESS_TOKEN"
  const InstanceKey := "SF_INSTANCE_URL"

  class Environment {
    var vars: map<string, string>

    constructor (vars: map<string, string>)
      ensures this.vars == vars
    {
      this.vars := vars;
    }

    /** `os.getenv(key)`. */
    function Getenv(key: string): Option<string>
      reads this
    {
      Get(vars, key)
    }

    /** `os.environ[key] = value`. salesforce_client.py stores a refreshed
        token through `update_env_var(key, value)`, which it imports from
        oauth_flow.py, where it is not defined; only the environment update
        that ends the draft of that setter is modelled, not its rewrite of
        `.env`. */
    method Update(key: string, value: string)
      modifies this
      ensures vars == old(vars)[key := value]
    {
      vars := vars[key := value];
    }
  }
}
