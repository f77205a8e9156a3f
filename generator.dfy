/**
 * Configuration and construction of the static-site generator
 * (src/libgenerator/generator.rs). A decoded `config.json` overlays
 * optional directory names onto fixed defaults.
 */
module Generator {
  import opened Wrappers
  import opened GeneratorResult

  /** The decoded `config.json`: every directory is optional. Paths are kept as strings. */
  datatype ConfigJson = ConfigJson(
    assetsPath: Option<string>,
    contentPath: Option<string>,
    layoutsPath: Option<string>,
    outputPath: Option<string>)

  /** The effective configuration. */
  datatype Config = Config(assets: string, content: string, layouts: string, output: string)

  /** A layout file (src/libgenerator/layout.rs). */
  datatype Layout = Layout(name: string, path: string, contents: string)

  /**
   * The generator: a working directory plus the layouts, pages and filters
   * it collects. Pages and filters are type parameters because their
   * definitions are not part of this model.
   */
  datatype Generator<Page, Filter> = Generator(
    layouts: seq<Layout>,
    files: seq<Page>,
    directory: string,
    filters: seq<Filter>,
    config: ConfigJson)

  /** `Config::default`: the conventional directory layout of a site. */
  function DefaultConfig(): (c: Config)
    ensures c.assets == "assets" && c.content == "content"
    ensures c.layouts == "layouts" && c.output == "output"
  {
    Config("assets", "content", "layouts", "output")
  }

  /** `ConfigJson::default`: nothing configured. */
  function DefaultConfigJson(): (j: ConfigJson)
    ensures j.assetsPath.None? && j.contentPath.None?
    ensures j.layoutsPath.None? && j.outputPath.None?
  {
    ConfigJson(None, None, None, None)
  }

  /**
   * `Config::from_json` after JSON parsing: `decoded` is the outcome of
   * decoding the document into a `ConfigJson`. A decoding failure becomes a
   * generator error; otherwise each configured directory replaces its
   * default, independently of the others.
   */
  method FromJson(decoded: Result<ConfigJson, DecoderError>) returns (r: Result<Config, GeneratorError>)
    ensures decoded.Err? <==> r.Err?
    ensures decoded.Err? ==> r.error == FromDecoderError(decoded.error)
    ensures decoded.Ok? ==> r.Ok?
    ensures decoded.Ok? ==> r.value.assets == decoded.value.assetsPath.GetOr(DefaultConfig().assets)
    ensures decoded.Ok? ==> r.value.content == decoded.value.contentPath.GetOr(DefaultConfig().content)
    ensures decoded.Ok? ==> r.value.layouts == decoded.value.layoutsPath.GetOr(DefaultConfig().layouts)
    ensures decoded.Ok? ==> r.value.output == decoded.value.outputPath.GetOr(DefaultConfig().output)
    ensures decoded == Ok(DefaultConfigJson()) ==> r == Ok(DefaultConfig())
  {
    var config := DefaultConfig();
    if decoded.Err? {
      return Err(FromDecoderError(decoded.error));
    }
    var json := decoded.value;
    match json.assetsPath {
      case Some(buf) => config := config.(assets := buf);
      case None =>
    }
    match json.contentPath {
      case Some(buf) => config := config.(content := buf);
      case None =>
    }
    match json.layoutsPath {
      case Some(buf) => config := config.(layouts := buf);
      case None =>
    }
    match json.outputPath {
      case Some(buf) => config := config.(output := buf);
      case None =>
    }
    r := Ok(config);
  }

  /** `Generator::new`: remembers the directory and starts with nothing collected and nothing configured. */
  function NewGenerator<Page, Filter>(directory: string): (g: Generator<Page, Filter>)
    ensures g.directory == directory
    ensures g.layouts == [] && g.files == [] && g.filters == []
    ensures g.config == DefaultConfigJson()
  {
    Generator([], [], directory, [], DefaultConfigJson())
  }
}
