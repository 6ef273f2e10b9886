/**
  * The exit codes of an Artisan command (`Command::SUCCESS` and
  * `Command::FAILURE`).
  */
module Console {
  const Success: int := 0
  const Failure: int := 1
}
