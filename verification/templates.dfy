/**
 * The project generators `tf` and `scaffold`: which directories each ensures,
 * which files it writes from which template, and which processes it runs.
 * The interactive prompts of `scaffold` become the `ProjectKind` argument;
 * every answer leads to exactly one branch, and each branch writes only
 * under the project directory. `Render` gives the exact text of each
 * template for a project name.
 */
module Templates {
  import opened Text
  import opened Files

  datatype Frontend = React | Angular
  datatype Backend = Express | NestJS | FastAPI | Flask | Spring | Tote
  datatype WebApp = FrontendApp(frontend: Frontend) | BackendApp(backend: Backend)

  /** The answers to the prompts of `scaffold`. */
  datatype ProjectKind = Cli | Web(app: WebApp) | Generic

  /** Every file the two generators can write. */
  datatype Template =
    | CliMainPy | CliTestPy | CliReadme | CliRequirements | CliSetupPy
    | ReactIndexHtml | ReactIndexJs | ReactPackageJson
    | AngularComponentTs | AngularPackageJson
    | ExpressIndexJs | ExpressPackageJson
    | NestMainTs | NestAppModuleTs
    | FastApiMainPy | FastApiRequirements
    | FlaskAppPy | FlaskRequirements
    | SpringReadme | ToteReadme
    | GenericReadme | GenericRequirements
    | MainTf | VariablesTf | OutputsTf | LocalsTf

  // ---------------------------------------------------------------------------
  // Template texts
  // ---------------------------------------------------------------------------

  /** The line the generated CLI prints and its test looks for. */
  const Greeting := "Hello from your CLI tool!"

  const CliMainText := "import click\n\n@click.command()\ndef main():\n    click.echo('" + Greeting + "')\n\nif __name__ == '__main__':\n    main()\n"

  const CliTestText := "from main import main\n\ndef test_main(capsys):\n    main()\n    captured = capsys.readouterr()\n    assert '" + Greeting + "' in captured.out\n"

  /** The console-script entry point of the generated `setup.py`. */
  function EntryPoint(name: string): string {
    name + "=main:main"
  }

  /** `setup.py`: the package metadata, then the entry point as the only console script. */
  function SetupText(name: string): string {
    SetupHead(name) + ConsoleScript(name) + SetupTail
  }

  const SetupOpen := "from setuptools import setup\n\nsetup(\n    name='"

  function SetupHead(name: string): string {
    SetupOpen + name + SetupRest
  }

  const SetupRest := "',\n    version='0.1.0',\n    py_modules=['main'],\n    install_requires=['click'],\n    entry_points={'console_scripts': [\n        "

  function ConsoleScript(name: string): string {
    "'" + EntryPoint(name) + "'"
  }

  const SetupTail := "\n    ]},\n)\n"

  /** A README: the project name as title, a blank line, one sentence. */
  function Readme(name: string, blurb: string): string {
    "# " + name + "\n\n" + blurb + "\n"
  }

  const CliBlurb := "A CLI project scaffolded with DevAutomator."
  const SpringBlurb := "This is a Spring backend project. Please use Spring Initializr or your IDE to generate a full project."
  const ToteBlurb := "This backend project uses a custom 'tote' framework. Customize as needed."

  /** The generic README names the project type the prompt returned. */
  function GenericBlurb(projectType: string): string {
    "A new " + projectType + " project scaffolded with DevAutomator."
  }

  /** A `package.json`: the project name first, then the framework's dependencies and scripts. */
  function PackageJson(name: string, rest: string): string {
    "{\n  \"name\": \"" + name + "\",\n  \"version\": \"0.1.0\",\n" + rest
  }

  const ReactPackageRest := "  \"dependencies\": {\n    \"react\": \"^17.0.0\",\n    \"react-dom\": \"^17.0.0\"\n  },\n  \"scripts\": {\n    \"start\": \"echo \\\"Run your bundler here\\\"\"\n  }\n}\n"
  const AngularPackageRest := "  \"dependencies\": {\n    \"@angular/core\": \"~12.0.0\"\n  },\n  \"scripts\": {\n    \"start\": \"echo \\\"Run Angular CLI to serve your app\\\"\"\n  }\n}\n"
  const ExpressPackageRest := "  \"dependencies\": {\n    \"express\": \"^4.17.1\"\n  },\n  \"scripts\": {\n    \"start\": \"node index.js\"\n  }\n}\n"

  const ReactIndexHtmlText := "<!DOCTYPE html>\n<html lang='en'>\n<head>\n  <meta charset='UTF-8'>\n  <meta name='viewport' content='width=device-width, initial-scale=1.0'>\n  <title>React App</title>\n</head>\n<body>\n  <div id='root'></div>\n  <script src='../src/index.js'></script>\n</body>\n</html>\n"
  const ReactIndexJsText := "import React from 'react';\nimport ReactDOM from 'react-dom';\n\nconst App = () => <h1>Welcome to your React App!</h1>;\n\nReactDOM.render(<App />, document.getElementById('root'));\n"
  const AngularComponentText := "import { Component } from '@angular/core';\n\n@Component({\n  selector: 'app-root',\n  template: `<h1>Welcome to your Angular App!</h1>`\n})\nexport class AppComponent {}\n"
  const ExpressIndexText := "const express = require('express');\nconst app = express();\nconst PORT = process.env.PORT || 3000;\n\napp.get('/', (req, res) => res.send('Hello from Express!'));\n\napp.listen(PORT, () => console.log(`Server running on port ${PORT}`));\n"
  const NestMainText := "import { NestFactory } from '@nestjs/core';\nimport { AppModule } from './app.module';\n\nasync function bootstrap() {\n  const app = await NestFactory.create(AppModule);\n  await app.listen(3000);\n}\nbootstrap();\n"
  const NestModuleText := "import { Module } from '@nestjs/common';\n\n@Module({\n  imports: [],\n  controllers: [],\n  providers: [],\n})\nexport class AppModule {}\n"
  const FastApiMainText := "from fastapi import FastAPI\n\napp = FastAPI()\n\n@app.get('/')\ndef read_root():\n    return {'message': 'Hello from FastAPI!'}\n"
  const FlaskAppText := "from flask import Flask\n\napp = Flask(__name__)\n\n@app.route('/')\ndef hello():\n    return 'Hello from Flask!'\n\nif __name__ == '__main__':\n    app.run(debug=True)\n"

  const MainTfText := "terraform {\n  required_version = \">= 0.12\"\n  backend \"local\" {\n    path = \"terraform.tfstate\"\n  }\n}\n\nprovider \"aws\" {\n  region = var.region\n}\n"
  const VariablesTfText := "// Variable definitions\nvariable \"region\" {\n  description = \"The AWS region\"\n  type        = string\n  default     = \"us-east-1\"\n}\n"
  const OutputsTfText := "// Output definitions\noutput \"example_output\" {\n  description = \"An example output\"\n  value       = \"Hello, Terraform!\"\n}\n"
  const LocalsTfText := "// Local values\nlocals {\n  example_local = \"This is a local value\"\n}\n"

  /** The text a template is written with in the project `name`. */
  function Render(t: Template, name: string): string {
    match t
    case CliMainPy => CliMainText
    case CliTestPy => CliTestText
    case CliReadme => Readme(name, CliBlurb)
    case CliRequirements => "click\n"
    case CliSetupPy => SetupText(name)
    case ReactIndexHtml => ReactIndexHtmlText
    case ReactIndexJs => ReactIndexJsText
    case ReactPackageJson => PackageJson(name, ReactPackageRest)
    case AngularComponentTs => AngularComponentText
    case AngularPackageJson => PackageJson(name, AngularPackageRest)
    case ExpressIndexJs => ExpressIndexText
    case ExpressPackageJson => PackageJson(name, ExpressPackageRest)
    case NestMainTs => NestMainText
    case NestAppModuleTs => NestModuleText
    case FastApiMainPy => FastApiMainText
    case FastApiRequirements => "fastapi\nuvicorn\n"
    case FlaskAppPy => FlaskAppText
    case FlaskRequirements => "flask\n"
    case SpringReadme => Readme(name, SpringBlurb)
    case ToteReadme => Readme(name, ToteBlurb)
    case GenericReadme => Readme(name, GenericBlurb("generic"))
    case GenericRequirements => ""
    case MainTf => MainTfText
    case VariablesTf => VariablesTfText
    case OutputsTf => OutputsTfText
    case LocalsTf => LocalsTfText
  }

  const TerraformInit: seq<string> := ["terraform", "init"]

  // ---------------------------------------------------------------------------
  // The commands
  // ---------------------------------------------------------------------------

  /**
   * `tf`: the project directory, the four Terraform files in it, each once
   * and in layout order, then `terraform init` run inside it.
   */
  function Tf(name: string): (e: Effect<Template>)
    ensures e.writes == Placed(name, TfLayout)
    ensures Distinct(Paths(e.writes))
    ensures e.dirs == [name]
    ensures e.commands == [Command(TerraformInit, Some(name))]
  {
    JoinRelative(name, "main.tf");
    JoinRelative(name, "variables.tf");
    JoinRelative(name, "outputs.tf");
    JoinRelative(name, "locals.tf");
    PlacedDistinct(name, TfLayout);
    Effect(
      [name],
      [ Write(Join(name, "main.tf"), MainTf),
        Write(Join(name, "variables.tf"), VariablesTf),
        Write(Join(name, "outputs.tf"), OutputsTf),
        Write(Join(name, "locals.tf"), LocalsTf) ],
      [Command(TerraformInit, Some(name))])
  }

  /** `scaffold`: one branch per answer; no process is run. */
  function Scaffold(name: string, kind: ProjectKind): (e: Effect<Template>)
    ensures e.commands == []
    ensures |e.dirs| > 0 && e.dirs[0] == name
  {
    match kind
    case Cli =>
      var tests := Join(name, "tests");
      Effect(
        [name, tests],
        [ Write(Join(name, "main.py"), CliMainPy),
          Write(Join(tests, "test_main.py"), CliTestPy),
          Write(Join(name, "README.md"), CliReadme),
          Write(Join(name, "requirements.txt"), CliRequirements),
          Write(Join(name, "setup.py"), CliSetupPy) ],
        [])
    case Web(FrontendApp(React)) =>
      Effect(
        [name, Join(name, "public"), Join(name, "src")],
        [ Write(Join(Join(name, "public"), "index.html"), ReactIndexHtml),
          Write(Join(Join(name, "src"), "index.js"), ReactIndexJs),
          Write(Join(name, "package.json"), ReactPackageJson) ],
        [])
    case Web(FrontendApp(Angular)) =>
      Effect(
        [name, Join(name, "src")],
        [ Write(Join(Join(name, "src"), "app.component.ts"), AngularComponentTs),
          Write(Join(name, "package.json"), AngularPackageJson) ],
        [])
    case Web(BackendApp(Express)) =>
      Effect([name], [Write(Join(name, "index.js"), ExpressIndexJs), Write(Join(name, "package.json"), ExpressPackageJson)], [])
    case Web(BackendApp(NestJS)) =>
      Effect([name], [Write(Join(name, "main.ts"), NestMainTs), Write(Join(name, "app.module.ts"), NestAppModuleTs)], [])
    case Web(BackendApp(FastAPI)) =>
      Effect([name], [Write(Join(name, "main.py"), FastApiMainPy), Write(Join(name, "requirements.txt"), FastApiRequirements)], [])
    case Web(BackendApp(Flask)) =>
      Effect([name], [Write(Join(name, "app.py"), FlaskAppPy), Write(Join(name, "requirements.txt"), FlaskRequirements)], [])
    case Web(BackendApp(Spring)) =>
      Effect([name], [Write(Join(name, "README.md"), SpringReadme)], [])
    case Web(BackendApp(Tote)) =>
      Effect([name], [Write(Join(name, "README.md"), ToteReadme)], [])
    case Generic =>
      Effect([name], [Write(Join(name, "README.md"), GenericReadme), Write(Join(name, "requirements.txt"), GenericRequirements)], [])
  }

  // ---------------------------------------------------------------------------
  // The layouts
  // ---------------------------------------------------------------------------

  /** A file of a layout: its path relative to the project directory and its template. */
  datatype Entry = Entry(rel: string, template: Template)

  /** What each answer writes, relative to the project directory, in writing order. */
  function Layout(kind: ProjectKind): seq<Entry> {
    match kind
    case Cli => [
      Entry("main.py", CliMainPy), Entry(Inside("tests", "test_main.py"), CliTestPy), Entry("README.md", CliReadme),
      Entry("requirements.txt", CliRequirements), Entry("setup.py", CliSetupPy)]
    case Web(FrontendApp(React)) => [
      Entry(Inside("public", "index.html"), ReactIndexHtml), Entry(Inside("src", "index.js"), ReactIndexJs), Entry("package.json", ReactPackageJson)]
    case Web(FrontendApp(Angular)) => [Entry(Inside("src", "app.component.ts"), AngularComponentTs), Entry("package.json", AngularPackageJson)]
    case Web(BackendApp(Express)) => [Entry("index.js", ExpressIndexJs), Entry("package.json", ExpressPackageJson)]
    case Web(BackendApp(NestJS)) => [Entry("main.ts", NestMainTs), Entry("app.module.ts", NestAppModuleTs)]
    case Web(BackendApp(FastAPI)) => [Entry("main.py", FastApiMainPy), Entry("requirements.txt", FastApiRequirements)]
    case Web(BackendApp(Flask)) => [Entry("app.py", FlaskAppPy), Entry("requirements.txt", FlaskRequirements)]
    case Web(BackendApp(Spring)) => [Entry("README.md", SpringReadme)]
    case Web(BackendApp(Tote)) => [Entry("README.md", ToteReadme)]
    case Generic => [Entry("README.md", GenericReadme), Entry("requirements.txt", GenericRequirements)]
  }

  /** The subdirectories each answer ensures, relative to the project directory. */
  function SubDirs(kind: ProjectKind): seq<string> {
    match kind
    case Cli => ["tests"]
    case Web(FrontendApp(React)) => ["public", "src"]
    case Web(FrontendApp(Angular)) => ["src"]
    case _ => []
  }

  const TfLayout: seq<Entry> := [
    Entry("main.tf", MainTf), Entry("variables.tf", VariablesTf), Entry("outputs.tf", OutputsTf), Entry("locals.tf", LocalsTf)]

  function Rels(es: seq<Entry>): (rs: seq<string>)
    ensures |rs| == |es|
    ensures forall i :: 0 <= i < |es| ==> rs[i] == es[i].rel
  {
    if |es| == 0 then [] else [es[0].rel] + Rels(es[1..])
  }

  /** A layout written under the project directory. */
  function Placed(name: string, es: seq<Entry>): (ws: seq<Write<Template>>)
    ensures |ws| == |es|
    ensures forall i :: 0 <= i < |es| ==> ws[i] == Write(DirPrefix(name) + es[i].rel, es[i].template)
  {
    if |es| == 0 then [] else [Write(DirPrefix(name) + es[0].rel, es[0].template)] + Placed(name, es[1..])
  }

  // ---------------------------------------------------------------------------
  // Lemmas
  // ---------------------------------------------------------------------------

  /** Placing distinct relative paths under one directory gives distinct paths. */
  lemma PlacedDistinct(name: string, es: seq<Entry>)
    requires Distinct(Rels(es))
    ensures Distinct(Paths(Placed(name, es)))
  {
    var ps := Paths(Placed(name, es));
    forall i, j | 0 <= i < j < |ps| ensures ps[i] != ps[j] {
      if ps[i] == ps[j] {
        UnderInjective(name, es[i].rel, es[j].rel);
      }
    }
  }

  lemma CliLayout(name: string)
    ensures Scaffold(name, Cli).writes == Placed(name, Layout(Cli))
  {
    JoinJoin(name, "tests", "test_main.py");
    JoinRelative(name, "main.py");
    JoinRelative(name, "README.md");
    JoinRelative(name, "requirements.txt");
    JoinRelative(name, "setup.py");
    SameWrites(Scaffold(name, Cli).writes, name, Layout(Cli));
  }

  lemma ReactLayout(name: string)
    ensures Scaffold(name, Web(FrontendApp(React))).writes == Placed(name, Layout(Web(FrontendApp(React))))
  {
    JoinRelative(name, "package.json");
    JoinJoin(name, "public", "index.html");
    JoinJoin(name, "src", "index.js");
    SameWrites(Scaffold(name, Web(FrontendApp(React))).writes, name, Layout(Web(FrontendApp(React))));
  }

  lemma AngularLayout(name: string)
    ensures Scaffold(name, Web(FrontendApp(Angular))).writes == Placed(name, Layout(Web(FrontendApp(Angular))))
  {
    JoinJoin(name, "src", "app.component.ts");
    JoinRelative(name, "package.json");
    SameWrites(Scaffold(name, Web(FrontendApp(Angular))).writes, name, Layout(Web(FrontendApp(Angular))));
  }

  /** Writes that agree with a layout entry by entry are that layout placed. */
  lemma SameWrites(ws: seq<Write<Template>>, name: string, es: seq<Entry>)
    requires |ws| == |es|
    requires forall i :: 0 <= i < |es| ==> ws[i] == Write(DirPrefix(name) + es[i].rel, es[i].template)
    ensures ws == Placed(name, es)
  {
  }

  lemma BackendLayout(name: string, b: Backend)
    ensures Scaffold(name, Web(BackendApp(b))).writes == Placed(name, Layout(Web(BackendApp(b))))
  {
    match b
    case Express => JoinRelative(name, "index.js"); JoinRelative(name, "package.json");
    case NestJS => JoinRelative(name, "main.ts"); JoinRelative(name, "app.module.ts");
    case FastAPI => JoinRelative(name, "main.py"); JoinRelative(name, "requirements.txt");
    case Flask => JoinRelative(name, "app.py"); JoinRelative(name, "requirements.txt");
    case Spring => JoinRelative(name, "README.md");
    case Tote => JoinRelative(name, "README.md");
  }

  /** A path inside a subdirectory starts like the subdirectory's name and is one longer than the two names. */
  lemma InsideShape(x: string, y: string)
    requires x != []
    ensures |Inside(x, y)| == |x| + 1 + |y|
    ensures Inside(x, y)[0] == x[0]
  {
  }

  /** No layout names a file twice. */
  lemma LayoutDistinct(kind: ProjectKind)
    ensures Distinct(Rels(Layout(kind)))
  {
    match kind
    case Cli => CliDistinct();
    case Web(FrontendApp(React)) => ReactDistinct();
    case Web(FrontendApp(Angular)) => AngularDistinct();
    case Web(BackendApp(b)) => BackendDistinct(b);
    case Generic => PairDistinct(Layout(kind));
  }

  lemma CliDistinct()
    ensures Distinct(Rels(Layout(Cli)))
  {
    var es := Layout(Cli);
    InsideShape("tests", "test_main.py");
    forall i, j | 0 <= i < j < |es| ensures es[i].rel != es[j].rel {
      assert |es[i].rel| != |es[j].rel|;
    }
    RelsDistinct(es);
  }

  lemma RelsDistinct(es: seq<Entry>)
    requires forall i, j :: 0 <= i < j < |es| ==> es[i].rel != es[j].rel
    ensures Distinct(Rels(es))
  {
  }

  lemma ReactDistinct()
    ensures Distinct(Rels(Layout(Web(FrontendApp(React)))))
  {
    InsideShape("public", "index.html");
    InsideShape("src", "index.js");
    assert Rels(Layout(Web(FrontendApp(React)))) == [Inside("public", "index.html"), Inside("src", "index.js"), "package.json"];
  }

  lemma AngularDistinct()
    ensures Distinct(Rels(Layout(Web(FrontendApp(Angular)))))
  {
    InsideShape("src", "app.component.ts");
    PairDistinct(Layout(Web(FrontendApp(Angular))));
  }

  lemma BackendDistinct(b: Backend)
    ensures Distinct(Rels(Layout(Web(BackendApp(b)))))
  {
    if b == Spring || b == Tote {
      assert |Rels(Layout(Web(BackendApp(b))))| == 1;
    } else {
      PairDistinct(Layout(Web(BackendApp(b))));
    }
  }

  /** Two entries with different paths. */
  lemma PairDistinct(es: seq<Entry>)
    requires |es| == 2 && es[0].rel != es[1].rel
    ensures Distinct(Rels(es))
  {
  }

  /**
   * `scaffold` writes exactly its answer's layout, in order, under the
   * project directory, and no path twice.
   */
  lemma ScaffoldLayout(name: string, kind: ProjectKind)
    ensures Scaffold(name, kind).writes == Placed(name, Layout(kind))
    ensures Distinct(Paths(Scaffold(name, kind).writes))
  {
    match kind {
      case Cli => CliLayout(name);
      case Web(FrontendApp(React)) => ReactLayout(name);
      case Web(FrontendApp(Angular)) => AngularLayout(name);
      case Web(BackendApp(b)) => BackendLayout(name, b);
      case Generic =>
        JoinRelative(name, "README.md");
        JoinRelative(name, "requirements.txt");
    }
    LayoutDistinct(kind);
    PlacedDistinct(name, Layout(kind));
  }

  /** The directories `scaffold` ensures: the project directory, then its answer's subdirectories. */
  lemma ScaffoldDirs(name: string, kind: ProjectKind)
    ensures Scaffold(name, kind).dirs == [name] + seq(|SubDirs(kind)|, i requires 0 <= i < |SubDirs(kind)| => Join(name, SubDirs(kind)[i]))
  {
  }

  /**
   * The effect of `scaffold` on any file system: each file of the layout
   * exists under the project directory and holds its template, every other
   * file is as before, and the ensured directories exist whether or not
   * they did already.
   */
  lemma ScaffoldEffect(fs: FileSystem<Template>, name: string, kind: ProjectKind)
    ensures Written(fs, Apply(fs, Scaffold(name, kind)), Placed(name, Layout(kind)), Scaffold(name, kind).dirs)
  {
    ScaffoldLayout(name, kind);
    ApplyWritten(fs, Scaffold(name, kind));
  }

  /** The same for `tf`: the four Terraform files are written and the project directory ensured, nothing else is touched. */
  lemma TfEffect(fs: FileSystem<Template>, name: string)
    ensures Written(fs, Apply(fs, Tf(name)), Placed(name, TfLayout), [name])
  {
    ApplyWritten(fs, Tf(name));
  }
  /** `tf` adds exactly the project directory and its missing parents. */
  lemma TfDirs(fs: FileSystem<Template>, name: string)
    ensures Apply(fs, Tf(name)).dirs == fs.dirs + Makedirs(name)
  {
    assert Ensured([name]) == Makedirs(name);
  }

  /** The generated CLI prints the greeting its test looks for. */
  lemma CliGreets()
    ensures Contains(CliMainText, Greeting)
  {
    ContainsInfix("import click\n\n@click.command()\ndef main():\n    click.echo('", Greeting, "')\n\nif __name__ == '__main__':\n    main()\n");
  }

  /** The generated test looks for the greeting in what `main` printed. */
  lemma CliTestLooksForGreeting()
    ensures Contains(CliTestText, Greeting)
  {
    ContainsInfix("from main import main\n\ndef test_main(capsys):\n    main()\n    captured = capsys.readouterr()\n    assert '", Greeting, "' in captured.out\n");
  }

  /** The generated `setup.py` installs the project's name as a console script calling `main.main`. */
  lemma SetupEntryPoint(name: string)
    ensures Contains(SetupText(name), "'" + EntryPoint(name) + "'")
  {
    ContainsInfix(SetupHead(name), ConsoleScript(name), SetupTail);
  }

  /** A README's title is the project name. */
  lemma ReadmeNames(name: string, blurb: string)
    ensures Contains(Readme(name, blurb), name)
  {
    assert Readme(name, blurb) == "# " + name + ("\n\n" + blurb + "\n");
    ContainsInfix("# ", name, "\n\n" + blurb + "\n");
  }

  /** A `package.json` holds the project name as the package name. */
  lemma PackageJsonNames(name: string, rest: string)
    ensures Contains(PackageJson(name, rest), name)
  {
    var head := "{\n  \"name\": \"";
    var tail := "\",\n  \"version\": \"0.1.0\",\n" + rest;
    assert PackageJson(name, rest) == head + name + tail;
    ContainsInfix(head, name, tail);
  }

  /** The generated `setup.py` holds the project name as the package name. */
  lemma SetupNames(name: string)
    ensures Contains(SetupText(name), name)
  {
    var tail := SetupRest + ConsoleScript(name) + SetupTail;
    assert SetupHead(name) == SetupOpen + name + SetupRest;
    assert SetupText(name) == SetupOpen + name + tail;
    ContainsInfix(SetupOpen, name, tail);
  }

  /** The two README-only backends write the README and nothing else. */
  lemma ReadmeOnly(name: string, b: Backend)
    requires b == Spring || b == Tote
    ensures Paths(Scaffold(name, Web(BackendApp(b))).writes) == [Join(name, "README.md")]
  {
  }
}
