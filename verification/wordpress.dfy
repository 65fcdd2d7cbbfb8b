/**
 * The WordPress `wp-config.php` renderer (`SiteConfig.__str__` with
 * `__php_boolean` and `__php_str`) and the source-URL choice of
 * `SiteProvisioner.__init__`.
 *
 * A configuration is the map from attribute names to the values assigned to
 * them; attributes never assigned keep their class default, which is `''` or
 * `None` for every attribute, so both read as `Unset` here. The order in which
 * Python iterates the attribute mapping is not fixed, so the renderer takes it
 * as a parameter: any enumeration of the mapping's keys.
 */
module WordPress {
  import opened Wrappers
  import opened Protocol
  import Text

  /** The Python values the attributes hold. */
  datatype Setting = Unset | Flag(b: bool) | Number(i: int) | Str(s: string)

  /** Python's truth value of a setting. Attribute values are Python objects
      assigned in code, not decoded JSON, so they have a type of their own and
      their own truth test beside `Json.Truthy`. */
  predicate Truthy(v: Setting) {
    match v
    case Unset => false
    case Flag(b) => b
    case Number(i) => i != 0
    case Str(s) => s != ""
  }

  /** Python's `str(value)`. */
  function PyStr(v: Setting): string {
    match v
    case Unset => "None"
    case Flag(b) => if b then "True" else "False"
    case Number(i) => Text.ShowInt(i)
    case Str(s) => s
  }

  /** The attribute → PHP constant mapping. */
  const Mapping: map<string, string> := map[
    "db_host" := "DB_HOST",
    "db_username" := "DB_USER",
    "db_password" := "DB_PASSWORD",
    "db_name" := "DB_NAME",
    "db_prefix" := "DB_PREFIX",
    "db_charset" := "DB_CHARSET",
    "db_auto_repair" := "WP_ALLOW_REPAIR",
    "key_auth" := "AUTH_KEY",
    "key_secure_auth" := "SECURE_AUTH_KEY",
    "key_logged_in" := "LOGGED_IN_KEY",
    "key_nonce" := "NONCE_KEY",
    "salt_auth" := "AUTH_SALT",
    "salt_secure_auth" := "SECURE_AUTH_SALT",
    "salt_logged_in" := "LOGGED_IN_SALT",
    "salt_nonce" := "NONCE_SALT",
    "site_url" := "WP_SITEURL",
    "site_home" := "WP_HOME",
    "cookie_domain" := "COOKIE_DOMAIN",
    "cookie_path" := "COOKIEPATH",
    "site_cookie_path" := "SITECOOKIEPATH",
    "admin_cookie_path" := "ADMIN_COOKIE_PATH",
    "plugin_cookie_path" := "PLUGINS_COOKIE_PATH",
    "content_dir" := "WP_CONTENT_DIR",
    "content_url" := "WP_CONTENT_URL",
    "content_enable_modifications" := "DISALLOW_FILE_MODS",
    "template_path" := "TEMPLATEPATH",
    "stylesheet_path" := "STYLESHEETPATH",
    "plugin_dir" := "WP_PLUGIN_DIR",
    "plugin_url" := "WP_PLUGIN_URL",
    "revisions_autosave_interval" := "AUTOSAVE_INTERVAL",
    "revisions_max_stored" := "WP_POST_REVISIONS",
    "revisions_compact" := "EMPTY_TRASH_DAYS",
    "debug_server" := "WP_DEBUG",
    "debug_server_display" := "WP_DEBUG_DISPLAY",
    "debug_server_log" := "WP_DEBUG_LOG",
    "debug_db" := "SAVEQUERIES",
    "debug_client" := "SCRIPT_DEBUG",
    "concatenate_admin_js" := "CONCATENATE_SCRIPTS",
    "cache" := "WP_CACHE",
    "cron_enable" := "DISABLE_WP_CRON",
    "cron_alternate" := "ALTERNATE_WP_CRON",
    "integration_user_table" := "CUSTOM_USER_TABLE",
    "integration_usermeta_table" := "CUSTOM_USER_META_TABLE",
    "lang" := "WP_LANG",
    "lang_dir" := "WP_LANG_DIR",
    "chmod_dir" := "FS_CHMOD_DIR",
    "chmod_file" := "FS_CHMOD_FILE",
    "upgrade_method" := "FS_METHOD",
    "upgrade_global_db_tables" := "DO_NOT_UPGRADE_GLOBAL_TABLES",
    "ftp_host" := "FTP_HOST",
    "ftp_ssl" := "FTP_SSL",
    "ftp_base" := "FTP_BASE",
    "ftp_content_dir" := "FTP_CONTENT_DIR",
    "ftp_plugin_dir" := "FTP_PLUGIN_DIR",
    "ftp_key_pub" := "FTP_PUBKEY",
    "ftp_key_priv" := "FTP_PRIVKEY",
    "ftp_username" := "FTP_USER",
    "ftp_password" := "FTP_PASS"
  ]

  /** Attributes rendered as PHP booleans. Note `cron_alternative`, which is not
      an attribute: `cron_alternate` is rendered as a string. */
  const Bools: seq<string> := [
    "db_auto_repair", "debug_server", "debug_server_display", "debug_server_log",
    "debug_db", "debug_client", "concatenate_admin_js", "cache", "cron_alternative"]

  /** Attributes whose PHP constant means the opposite ("disable", "do not"). */
  const ReverseBools: seq<string> := [
    "content_enable_modifications", "cron_enable", "upgrade_global_db_tables"]

  /** `__php_boolean`. */
  function PhpBoolean(truthy: bool): (r: string)
    ensures r == "true" <==> truthy
    ensures r == "false" <==> !truthy
  {
    if truthy then "true" else "false"
  }

  /** What `re.sub` puts in place of each backslash or quote: the template
      `\\\\\'` reads as two escaped backslashes and a kept `\'`. */
  const Replacement: string := "\\\\\\'"

  predicate Special(c: char) {
    c == '\\' || c == '\''
  }

  /** The number of backslashes and quotes in `s`. */
  function SpecialCount(s: string): nat {
    if s == [] then 0 else (if Special(s[0]) then 1 else 0) + SpecialCount(s[1..])
  }

  /** The body of `__php_str`: every backslash or quote replaced, character by
      character, by the four-character `Replacement`. */
  function EscapeAsWritten(s: string): (r: string)
    ensures |r| == |s| + 3 * SpecialCount(s)
    ensures SpecialCount(s) == 0 ==> r == s
  {
    if s == [] then []
    else (if Special(s[0]) then Replacement else [s[0]]) + EscapeAsWritten(s[1..])
  }

  /** The escaping evidently intended: a backslash before each backslash or quote. */
  function EscapeIntended(s: string): (r: string)
    ensures |r| == |s| + SpecialCount(s)
    ensures SpecialCount(s) == 0 ==> r == s
  {
    if s == [] then []
    else (if Special(s[0]) then ['\\', s[0]] else [s[0]]) + EscapeIntended(s[1..])
  }

  /** Which escaping the renderer applies. */
  datatype Escaping = AsWritten | Intended

  function Escape(e: Escaping, s: string): string {
    match e
    case AsWritten => EscapeAsWritten(s)
    case Intended => EscapeIntended(s)
  }

  /** `__php_str` (as written, or corrected): the escaped text between single quotes. */
  function Quote(e: Escaping, s: string): (r: string)
    ensures |r| >= 2 && r[0] == '\'' && r[|r| - 1] == '\''
  {
    "'" + Escape(e, s) + "'"
  }

  /**
   * The PHP value text of one attribute, or `None` when the attribute is
   * skipped. A falsy value is skipped before anything else, so a boolean
   * attribute can only produce `true` and a reversed one only `false`.
   */
  function ValueText(e: Escaping, key: string, v: Setting): (r: Option<string>)
    ensures r.None? <==> !Truthy(v)
    ensures Truthy(v) && key in Bools ==> r == Some("true")
    ensures Truthy(v) && key !in Bools && key in ReverseBools ==> r == Some("false")
    ensures Truthy(v) && key !in Bools && key !in ReverseBools ==> r == Some(Quote(e, PyStr(v)))
  {
    if !Truthy(v) then None
    else if key in Bools then Some(PhpBoolean(Truthy(v)))
    else if key in ReverseBools then Some(PhpBoolean(!Truthy(v)))
    else Some(Quote(e, PyStr(v)))
  }

  /** `define('%s', %s);` */
  function Define(constant: string, value: string): string {
    "define('" + constant + "', " + value + ");"
  }

  /** The attribute's value, or its (falsy) class default. */
  function Lookup(config: map<string, Setting>, key: string): Setting {
    if key in config then config[key] else Unset
  }

  /** The option lines, one per attribute of `order` whose value is truthy. */
  function Lines(e: Escaping, config: map<string, Setting>, order: seq<string>): (r: seq<string>)
    requires forall k :: k in order ==> k in Mapping
    ensures |r| <= |order|
    ensures forall i :: 0 <= i < |r| ==> |r[i]| > 8 && r[i][..8] == "define('"
  {
    if order == [] then []
    else
      var key := order[0];
      var rest := Lines(e, config, order[1..]);
      match ValueText(e, key, Lookup(config, key))
      case None => rest
      case Some(text) => [Define(Mapping[key], text)] + rest
  }

  /** The attributes of `order` that produce a line, in order. */
  function Emitted(config: map<string, Setting>, order: seq<string>): seq<string> {
    if order == [] then []
    else if Truthy(Lookup(config, order[0])) then [order[0]] + Emitted(config, order[1..])
    else Emitted(config, order[1..])
  }

  /** The fixed text before the options. */
  const FilePre: string :=
    "<?php\n/*\n * Generated by HyperNova (hypernova.libraries.siteconfig.wordpress)\n *\n"
    + " * This file was automatically generated and any modifications made to it will\n"
    + " * likely be overwritten by automated maintenance. For assistance, contact our\n"
    + " * support department.\n */\n"

  /** The fixed text after the options. */
  const FilePost: string :=
    "\n$table_prefix = defined('TABLE_PREFIX') ? TABLE_PREFIX : '';\n\n"
    + "if (!defined('ABSPATH'))\n"
    + "    define('ABSPATH', (dirname(__FILE__) . DIRECTORY_SEPARATOR));\n\n"
    + "require_once(ABSPATH . 'wp-settings.php');\n"

  /** An enumeration of the mapping's keys: the possible iteration orders. */
  predicate IsOrder(order: seq<string>) {
    && (forall k :: k in order ==> k in Mapping)
    && (forall k :: k in Mapping ==> k in order)
    && Distinct(order)
  }

  /** No name occurs twice. */
  predicate Distinct(names: seq<string>) {
    forall i, j :: 0 <= i < j < |names| ==> names[i] != names[j]
  }

  /** `SiteConfig.__str__` with the given escaping and iteration order. */
  function RenderWith(e: Escaping, config: map<string, Setting>, order: seq<string>): (r: string)
    requires IsOrder(order)
    ensures r == FilePre + "\n" + Text.Join(Lines(e, config, order), "\n") + "\n" + FilePost
  {
    var middle := Text.Join(Lines(e, config, order), "\n");
    Text.JoinThree(FilePre, middle, FilePost, "\n");
    Text.Join([FilePre, middle, FilePost], "\n")
  }

  /** `SiteConfig.__str__` with `__php_str` corrected to escape each backslash
      or quote with one backslash. */
  function Render(config: map<string, Setting>, order: seq<string>): (r: string)
    requires IsOrder(order)
    ensures r == FilePre + "\n" + Text.Join(Lines(Intended, config, order), "\n") + "\n" + FilePost
  {
    RenderWith(Intended, config, order)
  }

  /** The base URLs of the WordPress source tarball. */
  const LatestSourceUrl: string := "http://wordpress.org/latest.tar.gz"

  const VersionedPrefix: string := "http://wordpress.org/wordpress-"
  const TarballSuffix: string := ".tar.gz"

  /** `__source_url % version`. */
  function VersionedSourceUrl(version: string): string {
    VersionedPrefix + version + TarballSuffix
  }

  /** The version a versioned tarball URL names, or `None` for any other URL. */
  function VersionOf(url: string): (r: Option<string>)
    ensures r.Some? ==> VersionedSourceUrl(r.value) == url
  {
    if |url| >= |VersionedPrefix| + |TarballSuffix|
       && url[..|VersionedPrefix|] == VersionedPrefix
       && url[|url| - |TarballSuffix|..] == TarballSuffix
    then
      var v := url[|VersionedPrefix|..|url| - |TarballSuffix|];
      assert url == url[..|VersionedPrefix|] + v + url[|url| - |TarballSuffix|..];
      Some(v)
    else None
  }

  /** What `SiteProvisioner.__init__` derives from the provisioner's parameters. */
  datatype Target = Target(domainName: string, sourceUrl: string)

  /**
   * The domain is the first parameter (an IndexError escapes when there is
   * none); the source is the versioned tarball when a second parameter
   * exists and the latest one otherwise.
   */
  function ProvisionTarget(parameters: seq<string>): (r: Result<Target, Exception>)
    ensures r.Failure? <==> |parameters| == 0
    ensures r.Failure? ==> r.error == IndexError
    ensures r.Success? ==> r.value.domainName == parameters[0]
    ensures r.Success? && |parameters| >= 2 ==>
      r.value.sourceUrl == "http://wordpress.org/wordpress-" + parameters[1] + ".tar.gz"
    ensures r.Success? && |parameters| == 1 ==> r.value.sourceUrl == LatestSourceUrl
  {
    if |parameters| == 0 then Failure(IndexError)
    else if |parameters| >= 2 then Success(Target(parameters[0], VersionedSourceUrl(parameters[1])))
    else Success(Target(parameters[0], LatestSourceUrl))
  }
}
