// Customization configs, as far as inheritance looks at them.
module Configs {
  import opened Wrappers

  datatype AdditionalFile = AdditionalFile(destination: string, source: string, content: Option<string>, permissions: Option<nat>)

  datatype OS = OS(hostname: string, seLinuxMode: string, uki: Option<string>, bootLoaderResetType: string, extraCommandLine: seq<string>,
    imageHistory: string, removePackageManager: Option<bool>)

  datatype Iso = Iso(additionalFiles: seq<AdditionalFile>, extraCommandLine: seq<string>, initramfsType: string, kdumpBootFiles: Option<string>)

  datatype Pxe = Pxe(additionalFiles: seq<AdditionalFile>, extraCommandLine: seq<string>, initramfsType: string,
    kdumpBootFiles: Option<string>, bootstrapBaseUrl: string, bootstrapFileUrl: string)

  datatype Artifacts = Artifacts(items: seq<string>, path: string)

  // The storage part is there where it says anything; what it says is a text.
  datatype Config = Config(baseConfigs: seq<string>, os: Option<OS>, iso: Option<Iso>, pxe: Option<Pxe>,
    artifacts: Option<Artifacts>, cosiCompressionLevel: Option<int>, storage: Option<string>)

  datatype ConfigWithBasePath = ConfigWithBasePath(config: Config, baseConfigPath: string)

  // How paths are joined and split.
  datatype Paths = Paths(join: (string, string) -> string, dir: string -> string)

  function GetAbsPathWithBase(paths: Paths, baseDirPath: string, inputPath: string): string {
    if inputPath != "" && inputPath[0] == '/' then inputPath else paths.join(baseDirPath, inputPath)
  }
}
