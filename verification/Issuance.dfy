/** What makes a burn claimable and a publication its publication. */
module Issuance {
  import opened Bytes
  import opened Intent
  import opened Types
  import Text

  const TOKEN_PROGRAM_ID := "TokenkegQfeZyiNwAJbNbGKPFXCWuBvf9Ss623VQ5DA"
  const TOKEN_2022_PROGRAM_ID := "TokenzQdBNbLqP5VEhdkAS6EPFLC1PHnBqCXEpPxuEb"
  const MEMO_PROGRAM_ID := "MemoSq4gqABAXKb96QnHj5ZbxdnGBnVWJChLWKFgS4"
  const NATIVE_MINT := "So11111111111111111111111111111111111111112"
  const BURN_IX := 8
  const BURN_CHECKED_IX := 15
  const DESTINATION_NOTICE_ZATOSHIS := 10_000

  const ALLOWED_EXTENSIONS := { "metadataPointer", "tokenMetadata", "mintCloseAuthority" }
  const REJECTED_EXTENSIONS := {
    "transferFeeConfig", "transferHook", "confidentialTransferMint", "pausable", "permissionedBurn",
    "permanentDelegate", "nonTransferable", "interestBearingConfig", "scaledUiAmount", "defaultAccountState" }

  /** Where an instruction sits: at the top of the transaction, or under an outer one. */
  datatype Locator = Outer(index: nat) | Inner(outer: nat, inner: nat)

  function Show(l: Locator): string {
    match l
    case Outer(i) => "outer:" + Text.Decimal(i)
    case Inner(o, i) => "outer:" + Text.Decimal(o) + "/inner:" + Text.Decimal(i)
  }

  function CompareLocators(a: Locator, b: Locator): int {
    var x, y := OuterOf(a), OuterOf(b);
    if x != y then x - y
    else if a.Outer? && b.Outer? then 0
    else if a.Outer? then -1
    else if b.Outer? then 1
    else a.inner - b.inner
  }

  function OuterOf(l: Locator): int { if l.Outer? then l.index else l.outer }

  datatype Instruction = Instruction(locator: Locator, programId: string, accounts: seq<string>, data: Bytes)
  datatype TokenAccount = TokenAccount(
    mint: string, owner: string, delegate: Option<string>, delegatedAmount: int, frozen: bool)
  datatype Mint = Mint(address: string, programId: string, decimals: int, initialized: bool, extensions: seq<string>)
  datatype SolanaTx = SolanaTx(
    signature: string, slot: int, network: SourceNetwork, finalized: bool, failed: bool, signers: seq<string>,
    instructions: seq<Instruction>, tokenAccounts: map<string, TokenAccount>, mint: Mint)

  datatype Burn = Burn(
    locator: Locator, programId: string, tokenAccount: string, mint: string, authority: string, amountBase: nat,
    decimals: Option<int>, isChecked: bool)

  datatype LocatedIntent = LocatedIntent(intent: Intent, locator: Locator)

  datatype AuthorityRole = Owner | Delegate

  datatype IssuanceFields = IssuanceFields(
    sourceNetwork: SourceNetwork, destinationNetwork: DestNetwork, mint: string, tokenProgram: string,
    sourceTx: string, burnLocator: Locator, amountBase: string, decimals: int, destination: string,
    burnAuthority: string, authorityRole: AuthorityRole, intentLocator: Locator, nonce: string)

  datatype AcceptedIssuance = AcceptedIssuance(
    issuance: IssuanceFields, commitmentHex: string, zcashTx: string, zcashOutputIndex: int,
    zcashNullDataIndex: int, zcashHeight: int, confirmations: int)

  datatype RejectReason =
    | TxFailed | NotFinalized | WrongNetwork | WrongProgram | WrongMint | WrongAmount | WrongDecimals | NativeMint
    | UnsupportedExtension | UnknownExtension | FrozenAccount | UnauthorizedDestination | MissingIntent
    | IntentMismatch | AuthorityNotSigner | UnsupportedAuthority | DuplicateClaim | DuplicatePublication
    | InvalidDestination

  datatype Checked = Rejected(reason: RejectReason) | Passed(issuance: IssuanceFields)

  /** SHA-256 of a UTF-8 text, and the address check of a network. */
  datatype Env = Env(digest: string -> Digest, destinationOk: (DestNetwork, string) -> bool)

  /* ---------- the canonical preimage ---------- */

  function SourceName(n: SourceNetwork): string {
    match n
    case SolanaDemo => "solana:demo"
    case SolanaDevnet => "solana:devnet"
    case SolanaMainnet => "solana:mainnet-beta"
  }

  function DestName(n: DestNetwork): string {
    match n case ZcashDemo => "zcash:demo" case ZcashTest => "zcash:test" case ZcashMain => "zcash:main"
  }

  function RoleName(r: AuthorityRole): string { match r case Owner => "owner" case Delegate => "delegate" }

  function PreimageFields(f: IssuanceFields): seq<string> {
    ["stamp-exp", "0", SourceName(f.sourceNetwork), DestName(f.destinationNetwork), f.mint, f.tokenProgram, f.sourceTx,
     Show(f.burnLocator), f.amountBase, Text.Integer(f.decimals), f.destination, f.burnAuthority,
     RoleName(f.authorityRole), Show(f.intentLocator), f.nonce]
  }

  function CanonicalPreimage(f: IssuanceFields): string { Text.Lines(PreimageFields(f)) }

  function CommitmentOf(env: Env, f: IssuanceFields): Digest { env.digest(CanonicalPreimage(f)) }

  /* ---------- reading a transaction ---------- */

  /** The burn an instruction is, if it is one. */
  function ReadBurn(i: Instruction): Option<Burn> {
    if i.programId != TOKEN_PROGRAM_ID && i.programId != TOKEN_2022_PROGRAM_ID then None
    else if |i.data| < 9 || |i.accounts| < 3 then None
    else if i.data[0] != BURN_IX && i.data[0] != BURN_CHECKED_IX then None
    else
      var isChecked := i.data[0] == BURN_CHECKED_IX;
      Some(Burn(i.locator, i.programId, i.accounts[0], i.accounts[1], i.accounts[2], FromLittleEndian(i.data[1..9]),
                if isChecked && |i.data| >= 10 then Some(i.data[9]) else None, isChecked))
  }

  function FirstBurn(instructions: seq<Instruction>): Option<Burn> {
    if instructions == [] then None
    else match ReadBurn(instructions[0])
      case Some(b) => Some(b)
      case None => FirstBurn(instructions[1..])
  }

  function DecodeBurn(tx: SolanaTx): Option<Burn> { FirstBurn(tx.instructions) }

  /** The intent a memo instruction carries, if it carries one. */
  function ReadIntent(i: Instruction): Option<LocatedIntent> {
    if i.programId != MEMO_PROGRAM_ID then None
    else match DecodeIntent(i.data)
      case Some(intent) => Some(LocatedIntent(intent, i.locator))
      case None => None
  }

  function IntentsIn(instructions: seq<Instruction>): seq<LocatedIntent> {
    if instructions == [] then []
    else
      var rest := IntentsIn(instructions[1..]);
      match ReadIntent(instructions[0]) case Some(i) => [i] + rest case None => rest
  }

  function DecodeIntents(tx: SolanaTx): seq<LocatedIntent> { IntentsIn(tx.instructions) }

  method FindBurn(tx: SolanaTx) returns (r: Option<Burn>)
    ensures r == DecodeBurn(tx)
  {
    for k := 0 to |tx.instructions|
      invariant FirstBurn(tx.instructions[k..]) == DecodeBurn(tx)
    {
      assert tx.instructions[k..][1..] == tx.instructions[k + 1..];
      r := ReadBurn(tx.instructions[k]);
      if r.Some? { return; }
    }
    r := None;
  }

  method CollectIntents(tx: SolanaTx) returns (found: seq<LocatedIntent>)
    ensures found == DecodeIntents(tx)
  {
    found := [];
    for k := 0 to |tx.instructions|
      invariant found + IntentsIn(tx.instructions[k..]) == DecodeIntents(tx)
    {
      assert tx.instructions[k..][1..] == tx.instructions[k + 1..];
      var intent := ReadIntent(tx.instructions[k]);
      if intent.Some? { found := found + [intent.value]; }
    }
  }

  /** The reason of the first extension that is not allowed. */
  function RejectExtensions(extensions: seq<string>): Option<RejectReason> {
    if extensions == [] then None
    else if extensions[0] in REJECTED_EXTENSIONS then Some(UnsupportedExtension)
    else if extensions[0] !in ALLOWED_EXTENSIONS then Some(UnknownExtension)
    else RejectExtensions(extensions[1..])
  }

  /** Who the burn authority is to the account; none if neither its owner nor a delegate for the amount. */
  function RoleOf(account: TokenAccount, burn: Burn): Option<AuthorityRole> {
    if account.owner == burn.authority then Some(Owner)
    else if account.delegate == Some(burn.authority) && account.delegatedAmount >= burn.amountBase then Some(Delegate)
    else None
  }

  datatype Expected = Expected(
    sourceNetwork: SourceNetwork, destinationNetwork: DestNetwork, mint: string, amountBase: nat, decimals: int,
    destination: string)

  function CheckMint(tx: SolanaTx, burn: Burn, expected: Expected): Option<RejectReason> {
    if burn.mint != expected.mint || burn.mint != tx.mint.address then Some(WrongMint)
    else if tx.mint.address == NATIVE_MINT then Some(NativeMint)
    else if tx.mint.programId != burn.programId then Some(WrongProgram)
    else if !tx.mint.initialized then Some(WrongMint)
    else if burn.amountBase != expected.amountBase || burn.amountBase == 0 then Some(WrongAmount)
    else if tx.mint.decimals != expected.decimals then Some(WrongDecimals)
    else if burn.isChecked && burn.decimals != Some(tx.mint.decimals) then Some(WrongDecimals)
    else RejectExtensions(tx.mint.extensions)
  }

  function CheckAccount(tx: SolanaTx, burn: Burn): Option<RejectReason> {
    if burn.tokenAccount !in tx.tokenAccounts || tx.tokenAccounts[burn.tokenAccount].mint != burn.mint
    then Some(WrongMint)
    else
      var account := tx.tokenAccounts[burn.tokenAccount];
      if account.frozen then Some(FrozenAccount)
      else if RoleOf(account, burn).None? then Some(UnsupportedAuthority)
      else if burn.authority !in tx.signers then Some(AuthorityNotSigner)
      else None
  }

  function CheckIntent(env: Env, intents: seq<LocatedIntent>, burn: Burn, expected: Expected): Option<RejectReason> {
    if intents == [] then Some(MissingIntent)
    else if |intents| > 1 then Some(IntentMismatch)
    else
      var intent := intents[0].intent;
      if intent.mint != burn.mint || intent.amountBase != burn.amountBase then Some(IntentMismatch)
      else if intent.destinationNetwork != expected.destinationNetwork then Some(WrongNetwork)
      else if intent.destination != expected.destination then Some(UnauthorizedDestination)
      else if !env.destinationOk(expected.destinationNetwork, intent.destination) then Some(InvalidDestination)
      else None
  }

  function First(a: Option<RejectReason>, b: Option<RejectReason>): Option<RejectReason> { if a.Some? then a else b }

  /** The first check that fails names the reason. */
  function ValidateBurn(env: Env, tx: SolanaTx, expected: Expected): Checked {
    if tx.network != expected.sourceNetwork then Rejected(WrongNetwork)
    else if tx.failed then Rejected(TxFailed)
    else if !tx.finalized then Rejected(NotFinalized)
    else match DecodeBurn(tx)
      case None => Rejected(TxFailed)
      case Some(burn) =>
        var intents := DecodeIntents(tx);
        match First(CheckMint(tx, burn, expected),
                    First(CheckAccount(tx, burn), CheckIntent(env, intents, burn, expected)))
        case Some(reason) => Rejected(reason)
        case None => Passed(FieldsOf(tx, burn, intents[0], expected))
  }

  function FieldsOf(tx: SolanaTx, burn: Burn, located: LocatedIntent, expected: Expected): IssuanceFields
    requires CheckAccount(tx, burn).None?
  {
    IssuanceFields(
      expected.sourceNetwork, expected.destinationNetwork, burn.mint, burn.programId, tx.signature, burn.locator,
      Text.Decimal(burn.amountBase), tx.mint.decimals, located.intent.destination, burn.authority,
      RoleOf(tx.tokenAccounts[burn.tokenAccount], burn).value, located.locator, located.intent.nonce)
  }

  /* ---------- publications ---------- */

  const OP_RETURN_MAGIC: Bytes := [0x53, 0x54, 0x4d, 0x50]
  const OP_RETURN_PAYLOAD_LEN := 38

  function EncodeOpReturnPayload(commitment: Digest): Bytes { OP_RETURN_MAGIC + [0, 0] + commitment }

  function DecodeOpReturnPayload(data: Bytes): Option<Bytes> {
    if |data| != OP_RETURN_PAYLOAD_LEN || data[..4] != OP_RETURN_MAGIC || data[4] != 0 || data[5] != 0 then None
    else Some(data[6..])
  }

  predicate CarriesPayload(o: ZcashOutput) { o.nullData.Some? && DecodeOpReturnPayload(o.nullData.value).Some? }

  function FirstOutput(outputs: seq<ZcashOutput>, p: ZcashOutput -> bool): Option<ZcashOutput> {
    if outputs == [] then None
    else if p(outputs[0]) then Some(outputs[0]) else FirstOutput(outputs[1..], p)
  }

  function PaidTo(address: string, least: int): ZcashOutput -> bool {
    (o: ZcashOutput) => o.address == Some(address) && o.valueZat >= least
  }

  function AddressedTo(address: string): ZcashOutput -> bool { (o: ZcashOutput) => o.address == Some(address) }

  /** The publication carries this issuance's commitment, pays its destination and is settled. */
  predicate ValidPublication(env: Env, f: IssuanceFields, z: ZcashPublication, minConfirmations: int) {
    && z.network == f.destinationNetwork
    && (var data := FirstOutput(z.outputs, CarriesPayload);
        data.Some? && data.value.nullData == Some(EncodeOpReturnPayload(CommitmentOf(env, f))))
    && FirstOutput(z.outputs, PaidTo(f.destination, DESTINATION_NOTICE_ZATOSHIS)).Some?
    && z.inBestChain && z.confirmations >= minConfirmations
  }

  /** Records the first output to the destination, whatever it pays. */
  function AcceptIssuance(env: Env, f: IssuanceFields, z: ZcashPublication): AcceptedIssuance {
    var dest := FirstOutput(z.outputs, AddressedTo(f.destination));
    var data := FirstOutput(z.outputs, CarriesPayload);
    AcceptedIssuance(f, ToHex(CommitmentOf(env, f)), z.txid, if dest.Some? then dest.value.index else 0,
                     if data.Some? then data.value.index else 0, if z.height.Some? then z.height.value else 0,
                     z.confirmations)
  }
}
