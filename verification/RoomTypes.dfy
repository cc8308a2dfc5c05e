/** Lifecycle values of a netplay room and its seats. */
module RoomTypes {
  type PlayerIndex = x: int | 0 <= x < 256

  datatype RoomStatus =
    | WaitingForGuest | CheckingCompatibility | SyncingState | RoomReady | StartScheduled
    | RoomPlaying | RoomPaused | RepairingState | Recovering | RoomClosed

  datatype PlayerStatus =
    | Empty | Connected | Checking | CompatibilityFailed | Syncing | Ready
    | Playing | Paused | Reconnecting | RecoveryExpired | Disconnected

  datatype RuntimeState =
    | RuntimeEmpty | RuntimeConnected | RuntimeChecking | RuntimeSyncing | RuntimeReady | RuntimeDeterministicReady
    | RuntimePlaying | RuntimePausing | RuntimePaused | RuntimeReconnecting | RuntimeStale | RuntimeDisconnected
    | RuntimeRecoveryExpired

  datatype PlayerRole = Host | Guest
}
