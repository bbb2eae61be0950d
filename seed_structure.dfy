/**
 * `documentStructure` of backend/src/scripts/seed-documentation.js: the
 * eight pages the seeding script inserts into an empty documentation table,
 * and what holds of them.
 */
module SeedStructure {
  import opened Common
  import opened DocumentStore
  import opened DocumentSeed

  // The HTML bodies of the pages, kept apart from the tree shape so that
  // reasoning about keys and parents never has to look inside them.

  const GettingStartedHtml: string :=
    "<h1>Getting Started with ClouSec</h1><p>Welcome to ClouSec! This documentation will help you get started with our platform.</p><p>ClouSec is a comprehensive cloud security solution designed to protect your cloud infrastructure and applications.</p>"

  const IntroductionHtml: string :=
    "<h1>Introduction to ClouSec</h1><p>ClouSec provides a suite of tools and services to secure your cloud environment.</p><p>Our platform offers:</p><ul><li>Continuous security monitoring</li><li>Threat detection and response</li><li>Compliance management</li><li>Security posture assessment</li></ul>"

  const InstallationHtml: string :=
    "<h1>Installing ClouSec</h1><p>Follow these steps to install and configure ClouSec in your environment.</p><p>ClouSec can be deployed in various cloud environments including AWS, Azure, and Google Cloud Platform.</p>"

  const LinuxSetupHtml: string :=
    "<h1>Linux Setup Guide</h1><p>This guide covers the installation of ClouSec on Linux-based systems.</p><p>ClouSec supports most major Linux distributions including Ubuntu, CentOS, and Debian.</p><pre><code>sudo apt update\nsudo apt install clousec</code></pre>"

  const UbuntuHtml: string :=
    "<h1>Ubuntu-specific Installation</h1><p>Follow these Ubuntu-specific instructions to install ClouSec.</p><p>These instructions are tested on Ubuntu 20.04 LTS and newer versions.</p><pre><code>sudo add-apt-repository ppa:clousec/stable\nsudo apt update\nsudo apt install clousec-agent</code></pre>"

  const ApiReferenceHtml: string :=
    "<h1>API Reference</h1><p>This section provides detailed information about the ClouSec API.</p><p>The ClouSec API allows you to programmatically interact with our platform, enabling automation and integration with your existing tools and workflows.</p>"

  const AuthenticationHtml: string :=
    "<h1>Authentication</h1><p>Learn how to authenticate with the ClouSec API.</p><p>ClouSec uses API keys for authentication. You can generate API keys from the ClouSec dashboard.</p><pre><code>curl -X POST https://api.clousec.com/v1/auth \\\n  -H \"Content-Type: application/json\" \\\n  -d '{\"apiKey\": \"your-api-key\"}'\n</code></pre>"

  const UsersApiHtml: string :=
    "<h1>Users API</h1><p>The Users API allows you to manage users in your ClouSec account.</p><p>You can create, update, and delete users, as well as manage their permissions and roles.</p><h2>Endpoints</h2><ul><li><code>GET /users</code> - List all users</li><li><code>POST /users</code> - Create a new user</li><li><code>GET /users/{id}</code> - Get a specific user</li><li><code>PUT /users/{id}</code> - Update a user</li><li><code>DELETE /users/{id}</code> - Delete a user</li></ul>"


  /** One HTML body per page of the structure. */
  datatype Bodies = Bodies(gettingStarted: string, introduction: string, installation: string,
                           linuxSetup: string, ubuntu: string, apiReference: string,
                           authentication: string, usersApi: string)

  /** The bodies the script ships. */
  const PageBodies := Bodies(GettingStartedHtml, IntroductionHtml, InstallationHtml, LinuxSetupHtml,
                             UbuntuHtml, ApiReferenceHtml, AuthenticationHtml, UsersApiHtml)

  /** No body is empty. */
  predicate Present(b: Bodies)
  {
    && b.gettingStarted != "" && b.introduction != "" && b.installation != "" && b.linuxSetup != ""
    && b.ubuntu != "" && b.apiReference != "" && b.authentication != "" && b.usersApi != ""
  }

  /**
   * The tree of pages with the given bodies: two root sections and six
   * pages below them, up to three levels deep.
   */
  function Structure(b: Bodies): seq<SeedEntry>
  {
    [
      SeedEntry("1", "Getting Started", None, 0, b.gettingStarted),
      SeedEntry("2", "Introduction", Some("1"), 0, b.introduction),
      SeedEntry("3", "Installation", Some("1"), 1, b.installation),
      SeedEntry("4", "Linux Setup", Some("3"), 0, b.linuxSetup),
      SeedEntry("5", "Ubuntu", Some("4"), 0, b.ubuntu),
      SeedEntry("6", "API Reference", None, 1, b.apiReference),
      SeedEntry("7", "Authentication", Some("6"), 0, b.authentication),
      SeedEntry("8", "Users API", Some("6"), 1, b.usersApi)
    ]
  }

  /** `documentStructure`. */
  const DocumentStructure: seq<SeedEntry> := Structure(PageBodies)

  /** The keys `"1"` to `"8"` are pairwise distinct, whatever the bodies. */
  lemma StructureKeysDistinct(b: Bodies)
    ensures DistinctKeys(Structure(b))
  {
  }

  /** Every title fits the `VARCHAR(255)` column, so no INSERT of the run fails. */
  lemma StructureTitlesFit(b: Bodies)
    ensures forall e :: e in Structure(b) ==> |e.title| <= MaxTitleLength
    ensures forall e :: e in Structure(b) ==> Fits(e.title, MaxTitleLength) && Column(e.title, MaxTitleLength) == e.title
  {
  }

  /** With every body present, every page has content and so receives a block. */
  lemma StructureContentPresent(b: Bodies)
    requires Present(b)
    ensures forall e :: e in Structure(b) ==> e.content != ""
  {
  }

  /** The first four shipped bodies are not empty. */
  lemma FirstBodiesPresent()
    ensures GettingStartedHtml != "" && IntroductionHtml != "" && InstallationHtml != "" && LinuxSetupHtml != ""
  {
  }

  /** The next two shipped bodies are not empty. */
  lemma MiddleBodiesPresent()
    ensures UbuntuHtml != "" && ApiReferenceHtml != ""
  {
  }

  /** The last two shipped bodies are not empty. */
  lemma LastBodiesPresent()
    ensures AuthenticationHtml != "" && UsersApiHtml != ""
  {
  }

  /** Every parent is listed before its children, as the root pass relies on. */
  lemma StructureParentsEarlier(b: Bodies)
    ensures ParentsEarlier(Structure(b))
  {
    var s := Structure(b);
    forall j | 0 <= j < |s| && s[j].parent.Some? ensures s[j].parent.value in KeySet(s[..j]) {
      KeySetContains(s[..j]);
      var i := if j <= 2 then 0 else if j == 3 then 2 else if j == 4 then 3 else 5;
      assert s[..j][i] == s[i];
    }
  }

  /** Every page hangs below one of the two roots. */
  lemma StructureGrounded(b: Bodies)
    ensures forall e :: e in Structure(b) ==> Grounded(Structure(b), e.key)
  {
    var s := Structure(b);
    StructureParentsEarlier(b);
    forall e | e in s ensures Grounded(s, e.key) {
      var i :| 0 <= i < |s| && s[i] == e;
      InsertedGrounded(s, s, i);
    }
  }
}
