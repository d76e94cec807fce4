/** TypeScript: the shared behaviour for `.ts` and `.tsx` files. */
module LangTypeScript {
  import opened Strings
  import LangBase

  const Config := LangBase.LanguageConfig("typescript", "TypeScript", [".ts", ".tsx"], "typescript", ["*.ts", "*.tsx"])

  /** A file is a TypeScript file exactly when it ends in `.ts` or `.tsx`. */
  lemma ValidFiles(p: string)
    ensures LangBase.IsValidFile(Config, p) <==> EndsWith(p, ".ts") || EndsWith(p, ".tsx")
  {
    LangBase.IsValidFileSpec(Config.extensions, p);
    if EndsWith(p, ".ts") {
      assert EndsWith(p, Config.extensions[0]);
    }
    if EndsWith(p, ".tsx") {
      assert EndsWith(p, Config.extensions[1]);
    }
  }

  /** Either extension is dropped from the title. */
  lemma TitleDropsExtension(dir: string, name: string, ext: string)
    requires name != "" && '/' !in name && '.' !in name
    requires "." + ext in Config.extensions
    ensures LangBase.FileTitle(dir + "/" + name + "." + ext) == name
  {
    var e := "." + ext;
    assert ext == e[1..];
    assert e == ".ts" || e == ".tsx";
    LangBase.FileTitleOfPlain(dir, name, ext);
  }
}
