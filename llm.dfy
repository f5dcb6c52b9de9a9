/**
 * `src/llm/__init__.py`: which LLM client `get_llm_client` hands out. The
 * clients themselves talk to a network service and are outside the model.
 */
module Llm {
  import opened Base
  import opened Json
  import opened Configuration

  /** The three client classes. */
  datatype Client = OllamaClient | OpenAIClient | AnthropicClient

  /** Whether the privacy section lets data leave the machine:
      `allow_external_api`, false when absent, by Python truthiness. A
      privacy value that is not a dict has no `.get`. */
  function AllowExternal(privacy: JValue): Result<bool>
  {
    if !privacy.JObj? then Err(AttributeError)
    else Ok(Truthy(Get(privacy.fields, "allow_external_api", JBool(false))))
  }

  /** `get_llm_client(provider)` on the configuration `get_config` returns:
      "openai" and "anthropic" get their own client only when external
      calls are allowed, the local Ollama client otherwise; every other
      provider gets Ollama. */
  function GetLlmClient(config: JValue, provider: string): (r: Result<Client>)
    ensures r.Ok? ==> (r.value == OpenAIClient <==> provider == "openai" && AllowExternal(Lookup(config, ["privacy"], JObj(map[]))) == Ok(true))
    ensures r.Ok? ==> (r.value == AnthropicClient <==> provider == "anthropic" && AllowExternal(Lookup(config, ["privacy"], JObj(map[]))) == Ok(true))
    ensures r.Ok? ==> (r.value == OllamaClient <==> provider !in {"openai", "anthropic"} || AllowExternal(Lookup(config, ["privacy"], JObj(map[]))) == Ok(false))
    ensures r.Err? <==> !Lookup(config, ["privacy"], JObj(map[])).JObj?
  {
    var privacy := Lookup(config, ["privacy"], JObj(map[]));
    match AllowExternal(privacy)
    case Err(e) => Err(e)
    case Ok(allow) =>
      if provider == "openai" then (if !allow then Ok(OllamaClient) else Ok(OpenAIClient))
      else if provider == "anthropic" then (if !allow then Ok(OllamaClient) else Ok(AnthropicClient))
      else Ok(OllamaClient)
  }

  /** Without a privacy section, or without `allow_external_api` in it,
      every provider gets the local client. */
  lemma LocalByDefault(config: JValue, provider: string)
    requires config.JObj?
    requires "privacy" !in config.fields || config.fields["privacy"] == JNull ||
      (config.fields["privacy"].JObj? && "allow_external_api" !in config.fields["privacy"].fields)
    ensures GetLlmClient(config, provider) == Ok(OllamaClient)
  {
    assert ["privacy"][1..] == [];
  }
}
