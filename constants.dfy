/** The seed data: the editor triple a fresh or reset playground starts
    from, and the default settings. */
module Constants {
  import opened Types

  /** Starter markup of the default HTML editor. */
  const DefaultHtmlCode: string :=
    "<div class=\"container\">\n" +
    "  <h1>Welcome to WebPlay Studio</h1>\n" +
    "  <p>Your professional real-time code playground.</p>\n" +
    "  <button onclick=\"greet()\">Click Me</button>\n" +
    "</div>"

  /** Starter stylesheet of the default CSS editor. */
  const DefaultCssCode: string :=
    "body {\n" +
    "  font-family: -apple-system, BlinkMacSystemFont, 'Segoe UI', Roboto, Oxygen, Ubuntu, Cantarell, 'Open Sans', 'Helvetica Neue', sans-serif;\n" +
    "  background-color: #f0f4f8;\n" +
    "  display: grid;\n" +
    "  place-items: center;\n" +
    "  height: 100vh;\n" +
    "  margin: 0;\n" +
    "}\n" +
    "\n" +
    ".container {\n" +
    "  text-align: center;\n" +
    "  background: white;\n" +
    "  padding: 2rem 3rem;\n" +
    "  border-radius: 12px;\n" +
    "  box-shadow: 0 10px 25px rgba(0,0,0,0.1);\n" +
    "}\n" +
    "\n" +
    "h1 {\n" +
    "  color: #4f46e5; /* Indigo */\n" +
    "}\n" +
    "\n" +
    "button {\n" +
    "  background-color: #4f46e5;\n" +
    "  color: white;\n" +
    "  border: none;\n" +
    "  padding: 10px 20px;\n" +
    "  border-radius: 6px;\n" +
    "  cursor: pointer;\n" +
    "  font-size: 16px;\n" +
    "  transition: background-color 0.2s;\n" +
    "}\n" +
    "\n" +
    "button:hover {\n" +
    "  background-color: #4338ca;\n" +
    "}"

  /** Starter script of the default JavaScript editor. */
  const DefaultJsCode: string :=
    "function greet() {\n" +
    "  const heading = document.querySelector('h1');\n" +
    "  heading.textContent = 'Powered By VK Thinks!';\n" +
    "  console.log('Button clicked! Welcome to the console.');\n" +
    "}"

  /** `DEFAULT_EDITORS`: one editor per language, in the order html, css, js,
      each identified by its bare language tag. */
  const DefaultEditors: seq<Editor> := [
    Editor("html", "HTML", Html, DefaultHtmlCode),
    Editor("css", "CSS", Css, DefaultCssCode),
    Editor("js", "JavaScript", Js, DefaultJsCode)
  ]

  /** `DEFAULT_SETTINGS`. */
  const DefaultSettings: Settings := Settings(14, true, 500)

  /** The shape the editor operations rely on: three entries, languages in
      the order html, css, js, each id the bare tag of its language, and
      therefore pairwise distinct ids free of '-'. */
  lemma DefaultEditorsShape()
    ensures |DefaultEditors| == 3
    ensures DefaultEditors[0].language == Html
    ensures DefaultEditors[1].language == Css
    ensures DefaultEditors[2].language == Js
    ensures forall i :: 0 <= i < 3 ==> DefaultEditors[i].id == Tag(DefaultEditors[i].language)
    ensures forall i, j :: 0 <= i < j < 3 ==> DefaultEditors[i].id != DefaultEditors[j].id
    ensures forall i :: 0 <= i < 3 ==> '-' !in DefaultEditors[i].id
  {
  }

  lemma DefaultSettingsValues()
    ensures DefaultSettings.fontSize == 14
    ensures DefaultSettings.autoRun
    ensures DefaultSettings.autoRunDelay == 500
  {
  }
}
